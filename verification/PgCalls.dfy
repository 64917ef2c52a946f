/** The calls of PgStorage: attempts against the database, repeated by the retry driver. */
module PgCalls {
  import opened Wrappers
  import opened GoInt
  import opened Models
  import opened Batch
  import opened Memory
  import opened PgErrors
  import opened Retry
  import opened Postgres

  /** The storage retries on the default schedule what isRetriablePgError lets through. */
  const CONFIG: Config<Error> := Config(None, Some(e => IsRetriablePgError(e)), true)

  /** The commit of a transaction: done, or failed with the server perhaps having applied it. */
  datatype Commit = Committed | Lost(err: Error, applied: bool)

  /** What the database does to one transaction: where it fails, if anywhere. */
  datatype TxFaults = TxFaults(begin: Option<Error>, prepareGauge: Option<Error>, prepareCounter: Option<Error>,
                               exec: nat -> Option<Error>, commit: Commit)

  /** Drivers know nothing of the storage's own commit marker. */
  ghost predicate FromDriver(f: TxFaults) {
    && (f.begin.Some? ==> !f.begin.value.HasCommitError())
    && (f.prepareGauge.Some? ==> !f.prepareGauge.value.HasCommitError())
    && (f.prepareCounter.Some? ==> !f.prepareCounter.value.HasCommitError())
    && (forall i: nat :: f.exec(i).Some? ==> !f.exec(i).value.HasCommitError())
  }

  /** The transaction is begun and both of its statements are prepared. */
  predicate IsPrepared(f: TxFaults) {
    f.begin.None? && f.prepareGauge.None? && f.prepareCounter.None?
  }

  /** Every statement before statement i of the batch goes through. */
  ghost predicate GoThrough(t: Table, ws: seq<Sample>, f: TxFaults, i: nat)
    requires Wellformed(ws) && i <= |ws|
  {
    IsPrepared(f) && (forall j: nat | j < i :: f.exec(j).None?) && UpsertAll(t, Front(ws, i)).Some?
  }

  function Front(ws: seq<Sample>, i: nat): (front: seq<Sample>)
    requires Wellformed(ws) && i <= |ws|
    ensures Wellformed(front)
  {
    assert forall w | w in ws[..i] :: w in ws;
    ws[..i]
  }

  /** Statement i is the first to fail, for the database says so or the sum does not fit. */
  ghost predicate StopsAt(t: Table, ws: seq<Sample>, f: TxFaults, i: nat)
    requires Wellformed(ws) && i < |ws|
  {
    GoThrough(t, ws, f, i) && !GoThrough(t, ws, f, i + 1)
  }

  /** A transaction that was told of a failure names it, after the step that failed. */
  predicate Names(err: Option<Error>, failure: Error) {
    err.Some? && err.value.Wrap? && err.value.inner == failure
  }

  ghost predicate ReportsStatement(t: Table, ws: seq<Sample>, f: TxFaults, err: Option<Error>)
    requires Wellformed(ws)
  {
    forall i: nat | i < |ws| && StopsAt(t, ws, f, i) ::
      Names(err, if f.exec(i).Some? then f.exec(i).value else Pg(NUMERIC_OUT_OF_RANGE))
  }

  /**
   * What the caller of one transaction is told: the first failure it met, a
   * failure of the commit under the marker, and nothing if there was none.
   */
  ghost predicate Reports(t: Table, ws: seq<Sample>, f: TxFaults, err: Option<Error>)
    requires Wellformed(ws)
  {
    && (f.begin.Some? ==> Names(err, f.begin.value))
    && (f.begin.None? && f.prepareGauge.Some? ==> Names(err, f.prepareGauge.value))
    && (f.begin.None? && f.prepareGauge.None? && f.prepareCounter.Some? ==> Names(err, f.prepareCounter.value))
    && ReportsStatement(t, ws, f, err)
    && (GoThrough(t, ws, f, |ws|) ==>
          if f.commit.Committed? then err.None? else Names(err, CommitError(f.commit.err)))
  }

  /** A transaction stops before its first statement, at one of them, or not before the commit. */
  lemma {:induction false} StopsOrGoesThrough(t: Table, ws: seq<Sample>, f: TxFaults, i: nat)
    requires Wellformed(ws) && i <= |ws|
    ensures GoThrough(t, ws, f, i) || !IsPrepared(f) || exists j: nat :: j < i && StopsAt(t, ws, f, j)
  {
    if i > 0 {
      StopsOrGoesThrough(t, ws, f, i - 1);
      assert GoThrough(t, ws, f, i - 1) ==> GoThrough(t, ws, f, i) || StopsAt(t, ws, f, i - 1);
    }
  }

  /** A statement that is not reached does not matter. */
  lemma {:induction false} GoneThrough(t: Table, ws: seq<Sample>, f: TxFaults, i: nat, j: nat)
    requires Wellformed(ws) && i <= j <= |ws| && GoThrough(t, ws, f, j)
    ensures GoThrough(t, ws, f, i)
  {
    if i < j {
      var front := Front(ws, j - 1);
      assert ws[j - 1] in ws && Front(ws, j) == front + [ws[j - 1]];
      UpsertAllSnoc(t, front, ws[j - 1]);
      GoneThrough(t, ws, f, i, j - 1);
    }
  }

  /** There is one first statement to fail, and nothing past it is reached. */
  lemma StopsOnce(t: Table, ws: seq<Sample>, f: TxFaults, i: nat)
    requires Wellformed(ws) && i < |ws| && StopsAt(t, ws, f, i)
    ensures !GoThrough(t, ws, f, |ws|)
    ensures forall j: nat | j < |ws| && StopsAt(t, ws, f, j) :: j == i
  {
    if GoThrough(t, ws, f, |ws|) {
      GoneThrough(t, ws, f, i + 1, |ws|);
    }
    forall j: nat | j < |ws| && StopsAt(t, ws, f, j)
      ensures j == i
    {
      if j < i {
        GoneThrough(t, ws, f, j + 1, i);
      } else if i < j {
        GoneThrough(t, ws, f, i + 1, j);
      }
    }
  }

  /** The statements before statement i went through, and the next finds their rows. */
  lemma NextStatement(t: Table, ws: seq<Sample>, f: TxFaults, i: nat)
    requires Wellformed(ws) && i < |ws| && GoThrough(t, ws, f, i)
    ensures Wellformed(ws) && ws[i] in ws
    ensures GoThrough(t, ws, f, i + 1)
            <==> f.exec(i).None? && Upsert(UpsertAll(t, Front(ws, i)).value, ws[i]).Some?
    ensures GoThrough(t, ws, f, i + 1)
            ==> UpsertAll(t, Front(ws, i + 1)) == Upsert(UpsertAll(t, Front(ws, i)).value, ws[i])
  {
    assert ws[i] in ws && Front(ws, i + 1) == Front(ws, i) + [ws[i]];
    UpsertAllSnoc(t, Front(ws, i), ws[i]);
  }

  /** A transaction succeeds exactly when nothing fails, and reports the commit marker exactly when the commit fails. */
  lemma SucceedsExactlyWhen(t: Table, ws: seq<Sample>, f: TxFaults, err: Option<Error>)
    requires Wellformed(ws) && FromDriver(f) && Reports(t, ws, f, err)
    ensures Wellformed(Front(ws, |ws|)) && Front(ws, |ws|) == ws
    ensures err.None? <==>
              && f.begin.None? && f.prepareGauge.None? && f.prepareCounter.None?
              && (forall i: nat | i < |ws| :: f.exec(i).None?)
              && UpsertAll(t, ws).Some? && f.commit.Committed?
    ensures err.Some? && err.value.HasCommitError() <==> GoThrough(t, ws, f, |ws|) && f.commit.Lost?
  {
    StopsOrGoesThrough(t, ws, f, |ws|);
  }

  /** Another attempt follows exactly if what this one met passes by itself, was not the commit, and is slept off. */
  lemma ReplayedExactlyWhen(t: Table, ws: seq<Sample>, f: TxFaults, err: Option<Error>, k: nat, slept: nat -> bool)
    requires Wellformed(ws) && FromDriver(f) && Reports(t, ws, f, err) && err.Some?
    ensures Repeated(k, err, slept) <==>
              && err.value.Wrap? && IsRetriablePgError(err.value.inner) && !GoThrough(t, ws, f, |ws|)
              && k < 3 && slept(k)
  {
    SucceedsExactlyWhen(t, ws, f, err);
    StopsOrGoesThrough(t, ws, f, |ws|);
    WrappingIsTransparent(err.value.text, err.value.inner);
  }

  /** The answer to a one-row statement: it arrives, or is lost with the row perhaps written. */
  datatype Reply = Answered | Dropped(err: Error, applied: bool)

  datatype BatchFailure = Rejected(why: Invalid) | Failed(err: Error)

  /** How a repeated counter upsert ends: the sum left in the row, how often it was added to, the calls made. */
  datatype CounterRun = CounterRun(sum: Int64, applied: nat, calls: nat, err: Option<Error>)

  /** One execution of the counter upsert adds to the row unless the sum overflows or the statement never ran. */
  predicate Writes(sum: Int64, d: Int64, reply: Reply) {
    InRange(sum + d) && (reply.Answered? || reply.applied)
  }

  function Written(sum: Int64, d: Int64, reply: Reply): Int64 {
    if Writes(sum, d, reply) then sum + d else sum
  }

  /** What the caller of the statement is told. */
  function Told(sum: Int64, d: Int64, reply: Reply): Option<Error> {
    if reply.Dropped? then Some(reply.err)
    else if InRange(sum + d) then None
    else Some(Pg(NUMERIC_OUT_OF_RANGE))
  }

  /** Call k failed with err and is followed by another. */
  predicate Repeated(k: nat, err: Option<Error>, slept: nat -> bool) {
    CONFIG.Announces(k, err) && slept(k)
  }

  /** The end of a run that has already made some calls and applied some of them. */
  ghost function After(r: CounterRun, applied: nat, calls: nat): CounterRun {
    CounterRun(r.sum, r.applied + applied, r.calls + calls, r.err)
  }

  /** UpdateCounter from its call k on, with sum in the row. */
  ghost function RunCounter(sum: Int64, d: Int64, reply: nat -> Reply, slept: nat -> bool, k: nat): CounterRun
    requires k <= |CONFIG.Schedule()|
    decreases |CONFIG.Schedule()| - k
  {
    var once := if Writes(sum, d, reply(k)) then 1 else 0;
    var err := Told(sum, d, reply(k));
    if Repeated(k, err, slept) then
      After(RunCounter(Written(sum, d, reply(k)), d, reply, slept, k + 1), once, 1)
    else
      CounterRun(Written(sum, d, reply(k)), once, 1, err)
  }

  /**
   * A nil error means at least one application and at most as many as the
   * calls made, of which there are at most four.
   */
  lemma {:induction false} CounterBounds(sum: Int64, d: Int64, reply: nat -> Reply, slept: nat -> bool, k: nat)
    requires k <= |CONFIG.Schedule()|
    ensures var r := RunCounter(sum, d, reply, slept, k);
            && r.applied <= r.calls <= 4 - k
            && (r.err.None? ==> 1 <= r.applied)
    decreases |CONFIG.Schedule()| - k
  {
    if Repeated(k, Told(sum, d, reply(k)), slept) {
      CounterBounds(Written(sum, d, reply(k)), d, reply, slept, k + 1);
    }
  }

  /** d added n times. */
  ghost function Times(n: nat, d: int): int {
    if n == 0 then 0 else d + Times(n - 1, d)
  }

  lemma {:induction false} TimesIsProduct(n: nat, d: int)
    ensures Times(n, d) == n * d
  {
    if n > 0 {
      TimesIsProduct(n - 1, d);
      assert (n - 1) * d + d == n * d;
    }
  }

  lemma {:induction false} CounterAddsUp(sum: Int64, d: Int64, reply: nat -> Reply, slept: nat -> bool, k: nat)
    requires k <= |CONFIG.Schedule()|
    ensures var r := RunCounter(sum, d, reply, slept, k);
            r.sum == sum + Times(r.applied, d)
    decreases |CONFIG.Schedule()| - k
  {
    assert Times(1, d) == d + Times(0, d);
    if Repeated(k, Told(sum, d, reply(k)), slept) {
      CounterAddsUp(Written(sum, d, reply(k)), d, reply, slept, k + 1);
    }
  }

  /** Whatever was lost, the row holds every application exactly. */
  lemma CounterIsExact(sum: Int64, d: Int64, reply: nat -> Reply, slept: nat -> bool, k: nat)
    requires k <= |CONFIG.Schedule()|
    ensures var r := RunCounter(sum, d, reply, slept, k);
            r.sum == sum + r.applied * d
  {
    CounterAddsUp(sum, d, reply, slept, k);
    TimesIsProduct(RunCounter(sum, d, reply, slept, k).applied, d);
  }

  /**
   * From call k on, call i is made: every call before it lost its answer to a
   * passing error and the pause was slept through.
   */
  ghost predicate Made(reply: nat -> Reply, slept: nat -> bool, k: nat, i: nat) {
    k <= i && forall j: nat | k <= j < i :: reply(j).Dropped? && Repeated(j, Some(reply(j).err), slept)
  }

  /** The statement reached the row, whether or not the answer came back. */
  predicate Ran(r: Reply) {
    r.Answered? || r.applied
  }

  ghost predicate RanOnce(reply: nat -> Reply, slept: nat -> bool, k: nat) {
    exists i: nat :: Made(reply, slept, k, i) && Ran(reply(i))
  }

  ghost predicate RanTwice(reply: nat -> Reply, slept: nat -> bool, k: nat) {
    exists i: nat, j: nat :: k <= i < j && Made(reply, slept, k, j) && Ran(reply(i)) && Ran(reply(j))
  }

  /** An overflow is final, so only a lost answer is followed by another call. */
  lemma OnlyLossesAreRepeated(sum: Int64, d: Int64, reply: nat -> Reply, slept: nat -> bool, k: nat)
    ensures Repeated(k, Told(sum, d, reply(k)), slept) <==> reply(k).Dropped? && Repeated(k, Some(reply(k).err), slept)
  {
    RetriedExactlyWhen(Pg(NUMERIC_OUT_OF_RANGE));
  }

  /** The calls made from k on are call k, and those made from k + 1 on if it is repeated. */
  lemma MadeFromNext(reply: nat -> Reply, slept: nat -> bool, k: nat, i: nat)
    requires k < i
    ensures Made(reply, slept, k, i) <==>
            reply(k).Dropped? && Repeated(k, Some(reply(k).err), slept) && Made(reply, slept, k + 1, i)
  {
  }

  lemma RanFromNext(reply: nat -> Reply, slept: nat -> bool, k: nat)
    ensures var more := reply(k).Dropped? && Repeated(k, Some(reply(k).err), slept);
            && (RanOnce(reply, slept, k) <==> Ran(reply(k)) || (more && RanOnce(reply, slept, k + 1)))
            && (RanTwice(reply, slept, k) <==>
                  more && (RanTwice(reply, slept, k + 1) || (Ran(reply(k)) && RanOnce(reply, slept, k + 1))))
  {
    forall i: nat | k < i
      ensures Made(reply, slept, k, i) <==>
              reply(k).Dropped? && Repeated(k, Some(reply(k).err), slept) && Made(reply, slept, k + 1, i)
    {
      MadeFromNext(reply, slept, k, i);
    }
    assert Made(reply, slept, k, k);
  }

  /** A call leaves the counter alone exactly when no statement ran, or the sum does not fit. */
  lemma {:induction false} CounterUntouchedExactlyWhen(sum: Int64, d: Int64, reply: nat -> Reply, slept: nat -> bool,
                                                       k: nat)
    requires k <= |CONFIG.Schedule()|
    ensures RunCounter(sum, d, reply, slept, k).applied == 0 <==> !RanOnce(reply, slept, k) || !InRange(sum + d)
    decreases |CONFIG.Schedule()| - k
  {
    OnlyLossesAreRepeated(sum, d, reply, slept, k);
    RanFromNext(reply, slept, k);
    if Repeated(k, Told(sum, d, reply(k)), slept) {
      CounterUntouchedExactlyWhen(Written(sum, d, reply(k)), d, reply, slept, k + 1);
    }
  }

  /**
   * However the call ends, repeating the statement counts the value at most
   * once precisely when no two of the statements sent reached the row, or the
   * row had no room for the value twice.
   */
  lemma {:induction false} CounterAppliedAtMostOnceExactlyWhen(sum: Int64, d: Int64, reply: nat -> Reply,
                                                               slept: nat -> bool, k: nat)
    requires k <= |CONFIG.Schedule()|
    ensures RunCounter(sum, d, reply, slept, k).applied <= 1 <==> !RanTwice(reply, slept, k) || !InRange(sum + 2 * d)
    decreases |CONFIG.Schedule()| - k
  {
    OnlyLossesAreRepeated(sum, d, reply, slept, k);
    RanFromNext(reply, slept, k);
    if Repeated(k, Told(sum, d, reply(k)), slept) {
      var next := Written(sum, d, reply(k));
      CounterAppliedAtMostOnceExactlyWhen(next, d, reply, slept, k + 1);
      CounterUntouchedExactlyWhen(next, d, reply, slept, k + 1);
      CounterUntouchedExactlyWhen(sum, d, reply, slept, k);
    }
  }

  /** One lost answer to a statement that was applied, and an answer to its repetition. */
  const LOST_ONCE: nat -> Reply := (k: nat) => if k == 0 then Dropped(Plain(ConnReset), true) else Answered
  const ALWAYS: nat -> bool := (k: nat) => true

  lemma LostOnceRunsTwice()
    ensures RanTwice(LOST_ONCE, ALWAYS, 0)
  {
    assert Repeated(0, Some(LOST_ONCE(0).err), ALWAYS);
    assert Made(LOST_ONCE, ALWAYS, 0, 1) && Ran(LOST_ONCE(0)) && Ran(LOST_ONCE(1));
  }

  /** Whatever the connection does, the value is counted at most once: exactly when the row has no room for it twice. */
  lemma CounterIsSafeExactlyWhen(sum: Int64, d: Int64)
    ensures (forall reply, slept :: RunCounter(sum, d, reply, slept, 0).applied <= 1) <==> !InRange(sum + 2 * d)
  {
    forall reply, slept
      ensures RunCounter(sum, d, reply, slept, 0).applied <= 1
              <==> !RanTwice(reply, slept, 0) || !InRange(sum + 2 * d)
    {
      CounterAppliedAtMostOnceExactlyWhen(sum, d, reply, slept, 0);
    }
    LostOnceRunsTwice();
    assert RunCounter(sum, d, LOST_ONCE, ALWAYS, 0).applied <= 1 <==> !InRange(sum + 2 * d);
  }

  /** None of the calls made from k on was applied and then lost its answer. */
  ghost predicate NoneLost(reply: nat -> Reply, slept: nat -> bool, k: nat) {
    forall i: nat :: Made(reply, slept, k, i) && reply(i).Dropped? ==> !reply(i).applied
  }

  lemma NoneLostFromNext(reply: nat -> Reply, slept: nat -> bool, k: nat)
    requires reply(k).Dropped? && Repeated(k, Some(reply(k).err), slept)
    ensures NoneLost(reply, slept, k) <==> !reply(k).applied && NoneLost(reply, slept, k + 1)
  {
    forall i: nat | k < i
      ensures Made(reply, slept, k, i) <==> Made(reply, slept, k + 1, i)
    {
      MadeFromNext(reply, slept, k, i);
    }
    assert Made(reply, slept, k, k);
  }

  /**
   * A call that succeeds has counted its value exactly once precisely when
   * none of the statements whose answer was lost had been applied.
   */
  lemma {:induction false} CounterAppliedOnceExactlyWhen(sum: Int64, d: Int64, reply: nat -> Reply, slept: nat -> bool,
                                                         k: nat)
    requires k <= |CONFIG.Schedule()|
    requires RunCounter(sum, d, reply, slept, k).err.None?
    ensures RunCounter(sum, d, reply, slept, k).applied == 1 <==> NoneLost(reply, slept, k)
    decreases |CONFIG.Schedule()| - k
  {
    OnlyLossesAreRepeated(sum, d, reply, slept, k);
    if reply(k).Dropped? {
      var next := Written(sum, d, reply(k));
      NoneLostFromNext(reply, slept, k);
      CounterAppliedOnceExactlyWhen(next, d, reply, slept, k + 1);
      CounterBounds(next, d, reply, slept, k + 1);
    }
  }

  /** One connection lost after the row was written is enough to count a value twice and report success. */
  lemma CounterCanBeAppliedTwice()
    ensures var reply := (k: nat) => if k == 0 then Dropped(Plain(ConnReset), true) else Answered;
            RunCounter(0, 5, reply, (k: nat) => true, 0) == CounterRun(10, 2, 2, None)
  {
    var reply := (k: nat) => if k == 0 then Dropped(Plain(ConnReset), true) else Answered;
    assert Repeated(0, Some(reply(0).err), (k: nat) => true);
    assert RunCounter(5, 5, reply, (k: nat) => true, 1) == CounterRun(10, 1, 1, None);
  }

  /** With every answer lost the value is counted four times and an error reported. */
  lemma CounterCanBeAppliedFourTimes()
    ensures RunCounter(0, 5, (k: nat) => Dropped(Plain(ConnReset), true), (k: nat) => true, 0)
         == CounterRun(20, 4, 4, Some(Plain(ConnReset)))
  {
    var reply, slept := (k: nat) => Dropped(Plain(ConnReset), true), (k: nat) => true;
    assert RunCounter(15, 5, reply, slept, 3) == CounterRun(20, 1, 1, Some(Plain(ConnReset)));
    assert RunCounter(10, 5, reply, slept, 2) == CounterRun(20, 2, 2, Some(Plain(ConnReset)));
    assert RunCounter(5, 5, reply, slept, 1) == CounterRun(20, 3, 3, Some(Plain(ConnReset)));
  }

  // ---------------------------------------------------------------- the retry driver

  /** What the retry driver sees of a call: how each attempt would fail, and how each wait ends. */
  function Attempts(errs: nat -> Option<Error>, slept: nat -> bool): World<(), Error> {
    World((k: nat) => Attempt((), errs(k)), (k: nat) => 0, slept)
  }

  /** The sum in the row before attempt k, if there is one. */
  function SumBefore(sum: Int64, d: Int64, reply: nat -> Reply, k: nat): Int64 {
    if k == 0 then sum else Written(SumBefore(sum, d, reply, k - 1), d, reply(k - 1))
  }

  function CounterErrors(sum: Int64, d: Int64, reply: nat -> Reply): nat -> Option<Error> {
    (k: nat) => Told(SumBefore(sum, d, reply, k), d, reply(k))
  }

  function GaugeErrors(reply: nat -> Reply): nat -> Option<Error> {
    (k: nat) => if reply(k).Answered? then None else Some(reply(k).err)
  }

  lemma {:induction false} CounterCallsFrom(start: Int64, d: Int64, reply: nat -> Reply, slept: nat -> bool, k: nat)
    requires k <= |CONFIG.Schedule()|
    requires forall j | 0 <= j < k :: Repeats(CONFIG, Attempts(CounterErrors(start, d, reply), slept), j)
    ensures IsCallCount(CONFIG, Attempts(CounterErrors(start, d, reply), slept),
                        k + RunCounter(SumBefore(start, d, reply, k), d, reply, slept, k).calls)
    decreases |CONFIG.Schedule()| - k
  {
    var w, sum := Attempts(CounterErrors(start, d, reply), slept), SumBefore(start, d, reply, k);
    assert w.call(k).err == Told(sum, d, reply(k));
    if Repeated(k, Told(sum, d, reply(k)), slept) {
      assert SumBefore(start, d, reply, k + 1) == Written(sum, d, reply(k));
      CounterCallsFrom(start, d, reply, slept, k + 1);
    }
  }

  /** The errors of the attempts made, in order. */
  function Listed(errs: seq<Option<Error>>): nat -> Option<Error> {
    (k: nat) => if k < |errs| then errs[k] else None
  }

  /** Another attempt follows only on an error without the commit marker, and while there is a wait left. */
  lemma RepeatedIsUnmarked(k: nat, err: Option<Error>, slept: nat -> bool)
    ensures Repeated(k, err, slept) ==> err.Some? && !err.value.HasCommitError() && k < |CONFIG.Schedule()|
  {
  }

  /** The first n attempts were each followed by another. */
  ghost predicate AreRepeated(errs: seq<Option<Error>>, slept: nat -> bool, n: nat)
    requires n <= |errs|
  {
    forall k | 0 <= k < n :: Repeated(k, errs[k], slept)
  }

  lemma ListedCallCount(errs: seq<Option<Error>>, slept: nat -> bool)
    requires 1 <= |errs| <= |CONFIG.Schedule()| + 1
    requires AreRepeated(errs, slept, |errs| - 1)
    requires !Repeated(|errs| - 1, errs[|errs| - 1], slept)
    ensures IsCallCount(CONFIG, Attempts(Listed(errs), slept), |errs|)
  {
    forall k | 0 <= k < |errs| - 1
      ensures Repeats(CONFIG, Attempts(Listed(errs), slept), k)
    {
      assert Repeated(k, errs[k], slept);
    }
  }

  /** UpdateCounter makes the calls the retry driver makes of its attempts. */
  lemma CounterCallsAreTheDrivers(sum: Int64, d: Int64, reply: nat -> Reply, slept: nat -> bool)
    ensures var errs := CounterErrors(sum, d, reply);
            IsCallCount(CONFIG, Attempts(errs, slept), RunCounter(sum, d, reply, slept, 0).calls)
  {
    CounterCallsFrom(sum, d, reply, slept, 0);
  }

  /** The table once the counter has been written so many times, the last time to sum. */
  ghost function Recorded(t: Table, id: string, sum: Int64, times: nat): Table {
    if times == 0 then t else WithDelta(t, id, sum)
  }

  lemma LastDeltaStays(t: Table, id: string, a: Int64, b: Int64, times: nat)
    ensures WithDelta(Recorded(t, id, a, times), id, b) == Recorded(t, id, b, times + 1)
    ensures Sum(RowAt(Recorded(t, id, b, times + 1), Key(COUNTER, id))) == b
  {
  }

  /** One of the first calls reached the row. */
  ghost predicate RanAmong(reply: nat -> Reply, calls: nat) {
    exists k: nat :: k < calls && (reply(k).Answered? || reply(k).applied)
  }

  lemma RanAmongNext(reply: nat -> Reply, k: nat)
    ensures RanAmong(reply, k + 1) <==> RanAmong(reply, k) || reply(k).Answered? || reply(k).applied
  {
  }

  /** The failure that the error of a call names. */
  function NamedBy<T>(r: Result<T, Error>): Option<Error> {
    if r.Ok? then None else if r.error.Wrap? then Some(r.error.inner) else Some(r.error)
  }

  predicate CommitApplied(c: Commit) {
    c.Committed? || c.applied
  }

  /** Attempt k at the aggregated batch ws reports what faults(k) does to it. */
  ghost predicate AllReport(t: Table, ws: seq<Sample>, faults: nat -> TxFaults, errs: seq<Option<Error>>) {
    Wellformed(ws) && forall k | 0 <= k < |errs| :: Reports(t, ws, faults(k), errs[k])
  }

  lemma AlsoReports(t: Table, ws: seq<Sample>, faults: nat -> TxFaults, errs: seq<Option<Error>>, err: Option<Error>)
    requires AllReport(t, ws, faults, errs) && Reports(t, ws, faults(|errs|), err)
    ensures AllReport(t, ws, faults, errs + [err])
  {
    forall k | 0 <= k < |errs + [err]|
      ensures Reports(t, ws, faults(k), (errs + [err])[k])
    {
      assert k < |errs| ==> (errs + [err])[k] == errs[k];
    }
  }

  /** No step of the transaction fails by itself. */
  ghost predicate IsFaultless(f: TxFaults) {
    IsPrepared(f) && (forall i: nat :: f.exec(i).None?) && f.commit.Committed?
  }

  /** A valid batch whose sums fit goes through at the first attempt on which nothing fails. */
  lemma FaultlessAttemptEnds(t: Table, raw: seq<Sample>, ws: seq<Sample>, faults: nat -> TxFaults,
                             errs: seq<Option<Error>>, slept: nat -> bool, k: nat)
    requires Wellformed(raw) && IsFold(ws, raw) && Fits(t, WriteBatch(raw))
    requires AllReport(t, ws, faults, errs) && IsCallCount(CONFIG, Attempts(Listed(errs), slept), |errs|)
    requires k < |errs| && IsFaultless(faults(k))
    ensures |errs| == k + 1 && errs[k].None?
  {
    BatchFitsExactlyWhen(t, raw, ws);
    assert Reports(t, ws, faults(k), errs[k]);
    SucceedsExactlyWhen(t, ws, faults(k), errs[k]);
    assert !Repeats(CONFIG, Attempts(Listed(errs), slept), k);
  }

  /** A counter upsert answered at once is the operation of the table. */
  lemma AnsweredAtOnceIsStep(t: Table, name: string, d: Int64, reply: nat -> Reply, slept: nat -> bool, t': Table)
    requires var r := RunCounter(Sum(RowAt(t, Key(COUNTER, name))), d, reply, slept, 0);
             r.err.None? && r.calls == 1 && t' == Recorded(t, name, r.sum, r.applied)
    ensures var r := RunCounter(Sum(RowAt(t, Key(COUNTER, name))), d, reply, slept, 0);
            PgStep(t, AddCounter(name, d), t', Counter(r.sum))
  {
    var sum: Int64 := Sum(RowAt(t, Key(COUNTER, name)));
    CallsAreMade(Written(sum, d, reply(0)), d, reply, slept, 1);
  }

  lemma CallsAreMade(sum: Int64, d: Int64, reply: nat -> Reply, slept: nat -> bool, k: nat)
    requires k <= |CONFIG.Schedule()|
    ensures 1 <= RunCounter(sum, d, reply, slept, k).calls
  {
  }

  // ---------------------------------------------------------------- reads

  /** Why a read returns nothing: models.ErrNotFound, or what the last attempt failed with. */
  datatype ReadFailure = NotFound | ReadFailed(err: Error)

  /** A query that the database answers unless attempt k fails. */
  function Query<T>(answer: Attempt<T, Error>, fails: nat -> Option<Error>, slept: nat -> bool): World<T, Error> {
    World((k: nat) => if fails(k).Some? then Attempt(answer.res, fails(k)) else answer, (k: nat) => 0, slept)
  }

  /** The one row of a gauge; no row is reported as an error. */
  function GaugeAnswer(t: Table, name: string): Attempt<Option<Float64>, Error> {
    if Key(GAUGE, name) in t then Attempt(t[Key(GAUGE, name)].value, None) else Attempt(None, Some(Plain(NoRows)))
  }

  function CounterAnswer(t: Table, name: string): Attempt<Option<Int64>, Error> {
    if Key(COUNTER, name) in t then Attempt(t[Key(COUNTER, name)].delta, None) else Attempt(None, Some(Plain(NoRows)))
  }

  /** What a reader makes of the last attempt. */
  function Reading<T>(text: string, last: Attempt<Option<T>, Error>): Result<T, ReadFailure> {
    if last.err.Some? && last.err.value.Is(NoRows) then Err(NotFound)
    else if last.err.Some? then Err(ReadFailed(Wrap(text, last.err.value)))
    else if last.res.None? then Err(NotFound)
    else Ok(last.res.value)
  }

  /** The result of a read whose last attempt failed on the way. */
  ghost predicate FailsWith<T>(r: Result<T, ReadFailure>, err: Error) {
    && r.Err?
    && if Root(err) == Plain(NoRows) then r.error == NotFound else r.error.ReadFailed? && Root(r.error.err) == Root(err)
  }

  /** Call k, made with some calls made and applied before it: the end of the run, or one more of those. */
  lemma RunGoesOn(sum: Int64, d: Int64, reply: nat -> Reply, slept: nat -> bool, k: nat, applied: nat)
    requires k <= |CONFIG.Schedule()|
    ensures var once, err := if Writes(sum, d, reply(k)) then 1 else 0, Told(sum, d, reply(k));
            After(RunCounter(sum, d, reply, slept, k), applied, k)
            == if Repeated(k, err, slept)
               then After(RunCounter(Written(sum, d, reply(k)), d, reply, slept, k + 1), applied + once, k + 1)
               else CounterRun(Written(sum, d, reply(k)), applied + once, k + 1, err)
  {
  }

  class PgStorage {
    /** The committed rows. */
    var table: Table

    constructor (t: Table)
      ensures table == t
    {
      table := t;
    }

    method UpdateGauge(name: string, value: Float64, reply: nat -> Reply, slept: nat -> bool)
      returns (r: Result<Float64, Error>, calls: nat)
      modifies this
      ensures IsCallCount(CONFIG, Attempts(GaugeErrors(reply), slept), calls)
      ensures table == if RanAmong(reply, calls) then WithValue(old(table), name, value) else old(table)
      ensures r.Ok? <==> reply(calls - 1).Answered?
      ensures r.Ok? ==> PgStep(old(table), SetGauge(name, value), table, Gauge(r.value))
      ensures r == if r.Ok? then Ok(value) else Err(Wrap("update gauge", reply(calls - 1).err))
    {
      var attempt := 0;
      while true
        invariant attempt <= |CONFIG.Schedule()|
        invariant table == if RanAmong(reply, attempt) then WithValue(old(table), name, value) else old(table)
        invariant forall k | 0 <= k < attempt :: Repeats(CONFIG, Attempts(GaugeErrors(reply), slept), k)
        decreases |CONFIG.Schedule()| - attempt
      {
        assert WithValue(WithValue(old(table), name, value), name, value) == WithValue(old(table), name, value);
        calls := attempt + 1;
        var answer := reply(attempt);
        RanAmongNext(reply, attempt);
        if answer.Answered? || answer.applied {
          table := WithValue(table, name, value);
        }
        if answer.Answered? {
          return Ok(RowAt(table, Key(GAUGE, name)).value.value), calls;
        }
        if !Repeated(attempt, Some(answer.err), slept) {
          return Err(Wrap("update gauge", answer.err)), calls;
        }
        attempt := attempt + 1;
      }
    }

    method UpdateCounter(name: string, value: Int64, reply: nat -> Reply, slept: nat -> bool)
      returns (r: Result<Int64, Error>, applied: nat, calls: nat)
      modifies this
      ensures CounterRun(Sum(RowAt(table, Key(COUNTER, name))), applied, calls, NamedBy(r))
           == RunCounter(Sum(RowAt(old(table), Key(COUNTER, name))), value, reply, slept, 0)
      ensures table == Recorded(old(table), name, Sum(RowAt(table, Key(COUNTER, name))), applied)
      ensures r.Ok? ==> r.value == Sum(RowAt(table, Key(COUNTER, name)))
      ensures r.Err? ==> r.error.Wrap?
    {
      ghost var start: Int64 := Sum(RowAt(table, Key(COUNTER, name)));
      ghost var sum := start;
      var attempt := 0;
      applied := 0;
      while true
        invariant attempt <= |CONFIG.Schedule()|
        invariant table == Recorded(old(table), name, sum, applied)
        invariant sum == Sum(RowAt(table, Key(COUNTER, name)))
        invariant After(RunCounter(sum, value, reply, slept, attempt), applied, attempt)
               == RunCounter(start, value, reply, slept, 0)
        decreases |CONFIG.Schedule()| - attempt
      {
        calls := attempt + 1;
        LastDeltaStays(old(table), name, sum, Written(sum, value, reply(attempt)), applied);
        RunGoesOn(sum, value, reply, slept, attempt, applied);
        var written, err := TryCounter(name, value, reply(attempt));
        sum := Written(sum, value, reply(attempt));
        if written {
          applied := applied + 1;
        }
        if err.None? || !Repeated(attempt, err, slept) {
          r := if err.None? then Ok(Sum(RowAt(table, Key(COUNTER, name)))) else Err(Wrap("update counter", err.value));
          assert NamedBy(r) == err;
          return;
        }
        attempt := attempt + 1;
      }
    }

    /** The stored gauge, exactly if there is one and the last attempt gets through. */
    method GetGauge(name: string, fails: nat -> Option<Error>, slept: nat -> bool)
      returns (r: Result<Float64, ReadFailure>, calls: nat)
      ensures IsCallCount(CONFIG, Query(GaugeAnswer(table, name), fails, slept), calls)
      ensures fails(calls - 1).None? ==>
                && PgStep(table, ReadGauge(name), table, if r.Ok? then Gauge(r.value) else Missing)
                && (r.Err? ==> r.error == NotFound)
      ensures fails(calls - 1).Some? ==> FailsWith(r, fails(calls - 1).value)
    {
      var last, n, _ := DoValue(CONFIG, Query(GaugeAnswer(table, name), fails, slept));
      calls := n;
      r := Reading("get gauge", last);
      if last.err.Some? {
        RootFacts(last.err.value);
      }
    }

    method GetCounter(name: string, fails: nat -> Option<Error>, slept: nat -> bool)
      returns (r: Result<Int64, ReadFailure>, calls: nat)
      ensures IsCallCount(CONFIG, Query(CounterAnswer(table, name), fails, slept), calls)
      ensures fails(calls - 1).None? ==>
                && PgStep(table, ReadCounter(name), table, if r.Ok? then Counter(r.value) else Missing)
                && (r.Err? ==> r.error == NotFound)
      ensures fails(calls - 1).Some? ==> FailsWith(r, fails(calls - 1).value)
    {
      var last, n, _ := DoValue(CONFIG, Query(CounterAnswer(table, name), fails, slept));
      calls := n;
      r := Reading("get counter", last);
      if last.err.Some? {
        RootFacts(last.err.value);
      }
    }

    /** All gauges of one attempt; what an attempt that broke off had read is discarded. */
    method GetAllGauges(fails: nat -> Option<Error>, slept: nat -> bool)
      returns (r: Result<map<string, Float64>, Error>, calls: nat)
      ensures IsCallCount(CONFIG, Query(Attempt(GaugeRows(table), None), fails, slept), calls)
      ensures r.Ok? <==> fails(calls - 1).None?
      ensures r.Ok? ==> PgStep(table, ReadGauges, table, AllGauges(r.value))
      ensures r.Err? ==> Root(r.error) == Root(fails(calls - 1).value)
    {
      var last, n, _ := DoValue(CONFIG, Query(Attempt(GaugeRows(table), None), fails, slept));
      calls := n;
      r := if last.err.Some? then Err(Wrap("get all gauges", last.err.value)) else Ok(last.res);
    }

    method GetAllCounters(fails: nat -> Option<Error>, slept: nat -> bool)
      returns (r: Result<map<string, Int64>, Error>, calls: nat)
      ensures IsCallCount(CONFIG, Query(Attempt(CounterRows(table), None), fails, slept), calls)
      ensures r.Ok? <==> fails(calls - 1).None?
      ensures r.Ok? ==> PgStep(table, ReadCounters, table, AllCounters(r.value))
      ensures r.Err? ==> Root(r.error) == Root(fails(calls - 1).value)
    {
      var last, n, _ := DoValue(CONFIG, Query(Attempt(CounterRows(table), None), fails, slept));
      calls := n;
      r := if last.err.Some? then Err(Wrap("get all counters", last.err.value)) else Ok(last.res);
    }

    /** One execution of the counter upsert. */
    method TryCounter(name: string, value: Int64, reply: Reply) returns (written: bool, err: Option<Error>)
      modifies this
      ensures var sum := Sum(RowAt(old(table), Key(COUNTER, name)));
              && written == Writes(sum, value, reply) && err == Told(sum, value, reply)
              && table == if written then WithDelta(old(table), name, Written(sum, value, reply)) else old(table)
    {
      var sum := Sum(RowAt(table, Key(COUNTER, name)));
      written, err := Writes(sum, value, reply), Told(sum, value, reply);
      if written {
        table := WithDelta(table, name, sum + value);
      }
    }

    /** One transaction: all of the batch or none of it, and a commit in doubt marked as such. */
    method UpdateBatchTx(batch: seq<Metric>, f: TxFaults) returns (err: Option<Error>, applied: bool)
      requires AllValid(batch) && this !in AllCells(batch) && Wellformed(Views(batch)) && FromDriver(f)
      modifies this
      ensures Wellformed(old(Views(batch)))
      ensures applied ==> UpsertAll(old(table), old(Views(batch))) == Some(table)
      ensures !applied ==> table == old(table)
      ensures Reports(old(table), old(Views(batch)), f, err)
      ensures applied <==> GoThrough(old(table), old(Views(batch)), f, |batch|) && (f.commit.Lost? ==> f.commit.applied)
    {
      if f.begin.Some? {
        return Some(Wrap("begin batch transaction", f.begin.value)), false;
      }
      if f.prepareGauge.Some? {
        return Some(Wrap("prepare gauge upsert", f.prepareGauge.value)), false;
      }
      if f.prepareCounter.Some? {
        return Some(Wrap("prepare counter upsert", f.prepareCounter.value)), false;
      }
      var rows, failure := ExecAll(batch, f);
      if failure.Some? {
        return failure, false;
      }
      if f.commit.Lost? {
        if f.commit.applied {
          table := rows;
        }
        var marked := CommitError(f.commit.err);
        assert marked.HasCommitError();
        return Some(Wrap("commit batch", marked)), f.commit.applied;
      }
      table := rows;
      return None, true;
    }

    /** The statements of the transaction, on rows only it can see. */
    method ExecAll(batch: seq<Metric>, f: TxFaults) returns (rows: Table, err: Option<Error>)
      requires AllValid(batch) && Wellformed(Views(batch)) && IsPrepared(f)
      ensures err.None? <==> GoThrough(table, Views(batch), f, |batch|)
      ensures err.None? ==> UpsertAll(table, Views(batch)) == Some(rows)
      ensures ReportsStatement(table, Views(batch), f, err)
    {
      ghost var ws := Views(batch);
      rows := table;
      for i := 0 to |batch|
        invariant Views(batch) == ws
        invariant GoThrough(table, ws, f, i) && UpsertAll(table, Front(ws, i)) == Some(rows)
      {
        NextStatement(table, ws, f, i);
        var m := batch[i].View();
        if f.exec(i).Some? {
          StopsOnce(table, ws, f, i);
          return rows, Some(Wrap("update " + m.mtype, f.exec(i).value));
        }
        var next := Upsert(rows, m);
        if next.None? {
          StopsOnce(table, ws, f, i);
          return rows, Some(Wrap("update " + m.mtype, Pg(NUMERIC_OUT_OF_RANGE)));
        }
        rows := next.value;
      }
      assert Front(ws, |batch|) == ws;
      forall i: nat | i < |ws|
        ensures !StopsAt(table, ws, f, i)
      {
        GoneThrough(table, ws, f, i + 1, |ws|);
      }
      err := None;
    }

    /**
     * However the attempts end, the batch is applied at most once: exactly
     * once when the error is nil, never when it is not a commit in doubt.
     * Applied, it does to the stored metrics what its raw metrics do one by
     * one. Every attempt reports what the database did to it, on the rows as
     * they were and with the metrics folded to ws.
     */
    method UpdateBatch(metrics: seq<Metric>, faults: nat -> TxFaults, slept: nat -> bool)
      returns (err: Option<BatchFailure>, applied: nat, calls: nat, ghost errs: seq<Option<Error>>,
               ghost ws: seq<Sample>)
      requires AllValid(metrics) && this !in AllCells(metrics)
      requires forall k: nat :: FromDriver(faults(k))
      modifies this
      ensures applied <= 1 && |errs| == calls
      ensures calls == 0 <==> |metrics| == 0 || !Wellformed(old(Views(metrics)))
      ensures 0 < calls ==> IsCallCount(CONFIG, Attempts(Listed(errs), slept), calls)
      ensures 0 < calls ==> err == if errs[calls - 1].None? then None else Some(Failed(errs[calls - 1].value))
      ensures 0 < calls ==> IsFold(ws, old(Views(metrics))) && AllReport(old(table), ws, faults, errs)
      ensures err.Some? && err.value.Rejected? <==> !Wellformed(old(Views(metrics)))
      ensures err.Some? && err.value.Rejected? ==> FirstProblem(old(Views(metrics)), err.value.why)
      ensures applied == 0 ==> table == old(table)
      ensures applied == 1 ==> Wellformed(old(Views(metrics)))
      ensures applied == 1 ==> Abs(table) == ApplyAll(Abs(old(table)), old(Views(metrics)))
      ensures err.None? ==> if |metrics| == 0 then applied == calls == 0 else applied == 1
      ensures err.Some? && err.value.Failed? ==> 0 < calls
      ensures err.Some? && err.value.Failed? ==>
                (applied == 1 <==> err.value.err.HasCommitError() && CommitApplied(faults(calls - 1).commit))
    {
      err, applied, calls, errs, ws := None, 0, 0, [], [];
      if |metrics| != 0 {
        ghost var raw := Views(metrics);
        var batch := AggregateBatch(metrics);
        if batch.Err? {
          err := Some(Rejected(batch.error));
        } else {
          ws := Views(batch.value);
          err, applied, calls, errs := RunFold(batch.value, raw, faults, slept);
        }
      }
    }

    /** The attempts at a batch that raw was aggregated to. */
    method RunFold(batch: seq<Metric>, ghost raw: seq<Sample>, faults: nat -> TxFaults, slept: nat -> bool)
      returns (err: Option<BatchFailure>, applied: nat, calls: nat, ghost errs: seq<Option<Error>>)
      requires AllValid(batch) && this !in AllCells(batch) && Wellformed(raw) && IsFold(Views(batch), raw)
      requires forall k: nat :: FromDriver(faults(k))
      modifies this
      ensures applied <= 1 && IsCallCount(CONFIG, Attempts(Listed(errs), slept), calls) && |errs| == calls
      ensures err == if errs[calls - 1].None? then None else Some(Failed(errs[calls - 1].value))
      ensures AllReport(old(table), old(Views(batch)), faults, errs)
      ensures applied == 0 ==> table == old(table)
      ensures applied == 1 ==> Abs(table) == ApplyAll(Abs(old(table)), raw)
      ensures applied == 1 <==>
              err.None? || (err.value.err.HasCommitError() && CommitApplied(faults(calls - 1).commit))
    {
      ghost var ws, rows := Views(batch), table;
      FoldIsWellformed(ws, raw);
      err, applied, calls, errs := RunBatch(batch, faults, slept);
      if applied == 1 {
        BatchSimulatesFold(rows, raw, ws, table);
      }
    }

    /** Attempt k at an aggregated batch; again if the driver goes on to the next. */
    method TryBatch(batch: seq<Metric>, faults: nat -> TxFaults, k: nat, slept: nat -> bool,
                    ghost errs: seq<Option<Error>>)
      returns (err: Option<Error>, applied: bool, again: bool)
      requires AllValid(batch) && this !in AllCells(batch) && Wellformed(Views(batch))
      requires FromDriver(faults(k)) && |errs| == k && AllReport(table, Views(batch), faults, errs)
      modifies this
      ensures Wellformed(old(Views(batch)))
      ensures applied ==> UpsertAll(old(table), old(Views(batch))) == Some(table)
      ensures !applied ==> table == old(table)
      ensures AllReport(old(table), old(Views(batch)), faults, errs + [err])
      ensures applied <==> err.None? || (err.value.HasCommitError() && CommitApplied(faults(k).commit))
      ensures again == Repeated(k, err, slept)
      ensures again ==> !applied && k < |CONFIG.Schedule()|
      ensures Views(batch) == old(Views(batch))
    {
      ghost var ws, rows := Views(batch), table;
      err, applied := UpdateBatchTx(batch, faults(k));
      assert Views(batch) == ws;
      SucceedsExactlyWhen(rows, ws, faults(k), err);
      AlsoReports(rows, ws, faults, errs, err);
      again := err.Some? && Repeated(k, err, slept);
      RepeatedIsUnmarked(k, err, slept);
    }

    /** The attempts at an aggregated batch. */
    method RunBatch(batch: seq<Metric>, faults: nat -> TxFaults, slept: nat -> bool)
      returns (err: Option<BatchFailure>, applied: nat, calls: nat, ghost errs: seq<Option<Error>>)
      requires AllValid(batch) && this !in AllCells(batch) && Wellformed(Views(batch))
      requires forall k: nat :: FromDriver(faults(k))
      modifies this
      ensures applied <= 1 && IsCallCount(CONFIG, Attempts(Listed(errs), slept), calls) && |errs| == calls
      ensures err == if errs[calls - 1].None? then None else Some(Failed(errs[calls - 1].value))
      ensures AllReport(old(table), old(Views(batch)), faults, errs)
      ensures applied == 0 ==> table == old(table)
      ensures applied == 1 ==> UpsertAll(old(table), old(Views(batch))) == Some(table)
      ensures applied == 1 <==>
              err.None? || (err.value.err.HasCommitError() && CommitApplied(faults(calls - 1).commit))
    {
      ghost var ws := Views(batch);
      var attempt := 0;
      errs := [];
      while true
        invariant attempt <= |CONFIG.Schedule()| && table == old(table)
        invariant Views(batch) == ws
        invariant |errs| == attempt && AreRepeated(errs, slept, attempt)
        invariant AllReport(old(table), ws, faults, errs)
        decreases |CONFIG.Schedule()| - attempt
      {
        calls := attempt + 1;
        var failure, done, again := TryBatch(batch, faults, attempt, slept, errs);
        applied := if done then 1 else 0;
        errs := errs + [failure];
        if !again {
          ListedCallCount(errs, slept);
          err := if failure.None? then None else Some(Failed(failure.value));
          return;
        }
        attempt := attempt + 1;
      }
    }
  }

  lemma BatchSimulatesFold(t: Table, raw: seq<Sample>, ws: seq<Sample>, t': Table)
    requires Wellformed(raw) && IsBatchWrite(t, raw, ws, t')
    ensures Abs(t') == ApplyAll(Abs(t), raw)
  {
    BatchSimulates(t, raw, t');
  }
}
