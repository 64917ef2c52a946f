/**
 * Any number of writers at one table: each runs its upserts in a transaction,
 * keeps the locks of the rows it wrote until the end, and starts over when an
 * attempt fails for a passing reason. Steps of different writers interleave
 * freely.
 */
module Transactions {
  import opened Wrappers
  import opened Models
  import opened Batch
  import opened PgErrors
  import opened Postgres
  import opened PgCalls

  datatype Status = Running | Finished(err: Option<Error>)

  /**
   * One call of the storage. A batch marks a commit of unknown outcome; a
   * one-row upsert commits by itself and does not. The rows written so far
   * are seen by nobody else, and their locks are held.
   */
  datatype Writer = Writer(writes: seq<Sample>, marks: bool, status: Status, attempt: nat, done: nat, buffer: Table) {
    predicate Finishing() {
      status.Running? && done == |writes|
    }

    /** There is a next row to write. */
    predicate Wanting() {
      status.Running? && done < |writes|
    }

    function Want(): Key
      requires Wanting()
    {
      KeyOf(writes[done])
    }

    /** What the caller's error is when the answer to the commit is lost. */
    function InDoubt(err: Error): Error {
      if marks then Wrap("commit batch", CommitError(err)) else err
    }

    /** An attempt ended with err: the locks are released and the retry driver decides. */
    function FailedWith(err: Error, slept: bool): Writer {
      if CONFIG.Announces(attempt, Some(err)) && slept
      then this.(attempt := attempt + 1, done := 0, buffer := map[])
      else this.(status := Finished(Some(err)), buffer := map[])
    }
  }

  /** The committed rows, the writers, and who committed in which order. */
  datatype State = State(rows: Table, writers: seq<Writer>, log: seq<nat>)

  datatype Step =
    | Exec(i: nat)
    | Fail(i: nat, err: Error, slept: bool)
    | CommitOk(i: nat)
    | CommitLost(i: nat, err: Error, applied: bool, slept: bool)

  /** Nobody else has written the row in a transaction still open. */
  ghost predicate Free(s: State, i: nat, k: Key) {
    forall j | 0 <= j < |s.writers| && j != i :: k !in s.writers[j].buffer
  }

  ghost function WithWriter(s: State, i: nat, w: Writer): State
    requires i < |s.writers|
  {
    s.(writers := s.writers[i := w])
  }

  /** The buffered rows become the committed ones. */
  ghost function Installed(s: State, i: nat, w: Writer): State
    requires i < |s.writers|
  {
    State(s.rows + s.writers[i].buffer, s.writers[i := w], s.log + [i])
  }

  /** The row the next write makes, out of the newest version the writer can see. */
  ghost function NextRow(rows: Table, w: Writer): Option<Row>
    requires w.Wanting()
  {
    if Problem(w.writes[w.done]).Some? then None
    else UpsertRow(RowAt(rows + w.buffer, w.Want()), w.writes[w.done])
  }

  ghost function Executed(w: Writer, row: Row): Writer
    requires w.Wanting()
  {
    w.(done := w.done + 1, buffer := w.buffer[w.Want() := row])
  }

  ghost predicate Next(s: State, step: Step, s': State) {
    step.i < |s.writers| && var w := s.writers[step.i];
    match step
    case Exec(i) =>
      && w.Wanting() && Free(s, i, w.Want()) && NextRow(s.rows, w).Some?
      && s' == WithWriter(s, i, Executed(w, NextRow(s.rows, w).value))
    case Fail(i, err, slept) =>
      && w.status.Running? && !err.HasCommitError()
      && s' == WithWriter(s, i, w.FailedWith(err, slept))
    case CommitOk(i) =>
      && w.Finishing()
      && s' == Installed(s, i, w.(status := Finished(None), buffer := map[]))
    case CommitLost(i, err, applied, slept) =>
      && w.Finishing() && !err.HasCommitError()
      && var w' := w.FailedWith(w.InDoubt(err), slept);
      && s' == if applied then Installed(s, i, w') else WithWriter(s, i, w')
  }

  ghost predicate Init(s: State) {
    && s.log == []
    && forall w | w in s.writers ::
         && w.status == Running && w.attempt == 0 && w.done == 0 && w.buffer == map[]
         && Wellformed(w.writes) && Increasing(w.writes) && (!w.marks ==> |w.writes| == 1)
  }

  /** states[n] is taken to states[n + 1] by steps[n]. */
  ghost predicate IsRun(states: seq<State>, steps: seq<Step>) {
    && |states| == |steps| + 1 && Init(states[0])
    && forall n | 0 <= n < |steps| :: Next(states[n], steps[n], states[n + 1])
  }

  // ---------------------------------------------------------------- invariant

  /** The buffer holds, for every write done, what it makes of the row as now committed. */
  ghost predicate BufferCurrent(rows: Table, ws: seq<Sample>, buffer: Table)
    requires Wellformed(ws)
  {
    && buffer.Keys == Keys(ws)
    && forall m | m in ws :: UpsertRow(RowAt(rows, KeyOf(m)), m) == Some(buffer[KeyOf(m)])
  }

  lemma PrefixIsWellformed(ws: seq<Sample>, n: nat)
    requires Wellformed(ws) && n <= |ws|
    ensures Wellformed(ws[..n])
    ensures Increasing(ws) ==> Increasing(ws[..n])
  {
  }

  ghost predicate WriterOk(rows: Table, w: Writer) {
    && Wellformed(w.writes) && Increasing(w.writes) && w.attempt <= |CONFIG.Schedule()| && w.done <= |w.writes|
    && Wellformed(w.writes[..w.done])
    && if w.status.Running? then BufferCurrent(rows, w.writes[..w.done], w.buffer) else w.buffer == map[]
  }

  ghost predicate Disjoint(writers: seq<Writer>) {
    forall i, j | 0 <= i < j < |writers| :: writers[i].buffer.Keys !! writers[j].buffer.Keys
  }

  ghost predicate Batches(batches: seq<seq<Sample>>) {
    forall i | 0 <= i < |batches| :: Wellformed(batches[i])
  }

  /** The committed batches applied one after another, alone, in the order of the log. */
  ghost function Serial(t: Table, batches: seq<seq<Sample>>, log: seq<nat>): Option<Table>
    requires Batches(batches) && forall n | 0 <= n < |log| :: log[n] < |batches|
  {
    if log == [] then Some(t)
    else
      var front := Serial(t, batches, log[..|log| - 1]);
      if front.Some? then UpsertAll(front.value, batches[log[|log| - 1]]) else None
  }

  ghost predicate Inv(s: State, t: Table, batches: seq<seq<Sample>>) {
    && |s.writers| == |batches| && Batches(batches)
    && (forall i | 0 <= i < |s.writers| :: s.writers[i].writes == batches[i] && WriterOk(s.rows, s.writers[i]))
    && Disjoint(s.writers)
    && (forall n | 0 <= n < |s.log| :: s.log[n] < |batches|)
    && Serial(t, batches, s.log) == Some(s.rows)
  }

  lemma MergeOne(rows: Table, less: Table, k: Key, r: Row)
    requires k !in less
    ensures (rows + less)[k := r] == rows + less[k := r]
    ensures RowAt(rows + less, k) == RowAt(rows, k)
  {
  }

  function Without(t: Table, k: Key): (less: Table)
    ensures less.Keys == t.Keys - {k}
    ensures k in t ==> t == less[k := t[k]]
  {
    map x | x in t && x != k :: t[x]
  }

  /** The buffer before its last write. */
  lemma BufferWithoutLast(rows: Table, ws: seq<Sample>, buffer: Table) returns (less: Table)
    requires Wellformed(ws) && Increasing(ws) && BufferCurrent(rows, ws, buffer) && ws != []
    ensures Wellformed(ws[..|ws| - 1]) && Increasing(ws[..|ws| - 1]) && BufferCurrent(rows, ws[..|ws| - 1], less)
    ensures KeyOf(ws[|ws| - 1]) in buffer && KeyOf(ws[|ws| - 1]) !in less
    ensures buffer == less[KeyOf(ws[|ws| - 1]) := buffer[KeyOf(ws[|ws| - 1])]]
  {
    var front, k := ws[..|ws| - 1], KeyOf(ws[|ws| - 1]);
    assert ws[|ws| - 1] in ws;
    KeysWithoutLast(ws);
    less := Without(buffer, k);
    assert less.Keys == Keys(front);
    forall m | m in front
      ensures UpsertRow(RowAt(rows, KeyOf(m)), m) == Some(less[KeyOf(m)])
    {
      assert m in ws && KeyOf(m) in Keys(front);
    }
  }

  /** A buffer that is current becomes, once committed, exactly what the batch does to the committed rows alone. */
  lemma {:induction false} BufferIsUpsertAll(rows: Table, ws: seq<Sample>, buffer: Table)
    requires Wellformed(ws) && Increasing(ws) && BufferCurrent(rows, ws, buffer)
    ensures UpsertAll(rows, ws) == Some(rows + buffer)
  {
    if ws == [] {
      assert rows + buffer == rows;
    } else {
      var front, w := ws[..|ws| - 1], ws[|ws| - 1];
      assert w in ws;
      var less := BufferWithoutLast(rows, ws, buffer);
      BufferIsUpsertAll(rows, front, less);
      MergeOne(rows, less, KeyOf(w), buffer[KeyOf(w)]);
    }
  }

  /** What others commit elsewhere does not touch a writer's buffer. */
  lemma WriterFramed(rows: Table, more: Table, w: Writer)
    requires WriterOk(rows, w) && w.buffer.Keys !! more.Keys
    ensures WriterOk(rows + more, w)
  {
    if w.status.Running? {
      forall m | m in w.writes[..w.done]
        ensures RowAt(rows + more, KeyOf(m)) == RowAt(rows, KeyOf(m))
      {
        assert KeyOf(m) in w.buffer.Keys;
      }
    }
  }

  /** Everything a writer has written comes before what it wants next. */
  lemma HeldBeforeWanted(w: Writer, k: Key)
    requires Increasing(w.writes) && w.Wanting() && k in Keys(w.writes[..w.done])
    ensures KeyLess(k, w.Want())
  {
    var x :| x in w.writes[..w.done] && KeyOf(x) == k;
    var i :| 0 <= i < w.done && w.writes[i] == x;
  }

  lemma WantIsNew(w: Writer)
    requires Increasing(w.writes) && w.Wanting()
    ensures w.Want() !in Keys(w.writes[..w.done])
  {
    if w.Want() in Keys(w.writes[..w.done]) {
      HeldBeforeWanted(w, w.Want());
      KeyLessIrreflexive(w.Want());
    }
  }

  lemma ExecKeepsWriter(rows: Table, w: Writer, row: Row)
    requires WriterOk(rows, w) && w.Wanting() && NextRow(rows, w) == Some(row)
    ensures WriterOk(rows, Executed(w, row))
  {
    var ws, m := w.writes[..w.done], w.writes[w.done];
    assert w.writes[..w.done + 1] == ws + [m];
    PrefixIsWellformed(w.writes, w.done + 1);
    KeysSnoc(ws, m);
    WantIsNew(w);
    MergeOne(rows, w.buffer, KeyOf(m), row);
    var buffer := w.buffer[KeyOf(m) := row];
    forall x | x in ws + [m]
      ensures UpsertRow(RowAt(rows, KeyOf(x)), x) == Some(buffer[KeyOf(x)])
    {
      assert x in ws ==> KeyOf(x) in Keys(ws);
    }
  }

  lemma FailKeepsWriter(rows: Table, w: Writer, err: Error, slept: bool)
    requires WriterOk(rows, w) && w.status.Running?
    ensures WriterOk(rows, w.FailedWith(err, slept)) && w.FailedWith(err, slept).buffer == map[]
    ensures w.FailedWith(err, slept).writes == w.writes
  {
    assert w.writes[..0] == [];
  }

  /** Serial extended by one more commit. */
  lemma SerialSnoc(t: Table, batches: seq<seq<Sample>>, log: seq<nat>, i: nat)
    requires Batches(batches) && (forall n | 0 <= n < |log| :: log[n] < |batches|) && i < |batches|
    ensures forall n | 0 <= n < |log + [i]| :: (log + [i])[n] < |batches|
    ensures Serial(t, batches, log + [i])
         == if Serial(t, batches, log).Some? then UpsertAll(Serial(t, batches, log).value, batches[i]) else None
  {
    assert (log + [i])[..|log + [i]| - 1] == log;
  }

  /** One writer changed, the committed rows untouched. */
  lemma WriterReplaced(s: State, i: nat, w: Writer, t: Table, batches: seq<seq<Sample>>)
    requires Inv(s, t, batches) && i < |s.writers|
    requires WriterOk(s.rows, w) && w.writes == s.writers[i].writes
    requires forall j | 0 <= j < |s.writers| && j != i :: s.writers[j].buffer.Keys !! w.buffer.Keys
    ensures Inv(WithWriter(s, i, w), t, batches)
  {
  }

  /** A row nobody else has written joins the buffer: the buffers stay apart. */
  lemma ApartWithOneMore(s: State, i: nat, row: Row, j: nat)
    requires Disjoint(s.writers) && i < |s.writers| && j < |s.writers| && i != j
    requires s.writers[i].Wanting() && Free(s, i, s.writers[i].Want())
    ensures s.writers[j].buffer.Keys !! Executed(s.writers[i], row).buffer.Keys
  {
    assert s.writers[i].Want() !in s.writers[j].buffer;
    assert s.writers[j].buffer.Keys !! s.writers[i].buffer.Keys;
  }

  lemma ExecKeeps(s: State, i: nat, s': State, t: Table, batches: seq<seq<Sample>>)
    requires Inv(s, t, batches) && Next(s, Exec(i), s')
    ensures Inv(s', t, batches)
  {
    var w := s.writers[i];
    var row := NextRow(s.rows, w).value;
    ExecKeepsWriter(s.rows, w, row);
    forall j | 0 <= j < |s.writers| && j != i
      ensures s.writers[j].buffer.Keys !! Executed(w, row).buffer.Keys
    {
      ApartWithOneMore(s, i, row, j);
    }
    WriterReplaced(s, i, Executed(w, row), t, batches);
  }

  lemma FailKeeps(s: State, i: nat, err: Error, slept: bool, t: Table, batches: seq<seq<Sample>>)
    requires Inv(s, t, batches) && i < |s.writers| && s.writers[i].status.Running?
    ensures Inv(WithWriter(s, i, s.writers[i].FailedWith(err, slept)), t, batches)
  {
    FailKeepsWriter(s.rows, s.writers[i], err, slept);
    WriterReplaced(s, i, s.writers[i].FailedWith(err, slept), t, batches);
  }

  /** Whatever becomes of the writer, its buffer goes into the rows and its turn into the log. */
  lemma CommitKeeps(s: State, i: nat, w': Writer, t: Table, batches: seq<seq<Sample>>)
    requires Inv(s, t, batches) && i < |s.writers| && s.writers[i].Finishing()
    requires w'.buffer == map[] && w'.writes == s.writers[i].writes
    requires WriterOk(s.rows, w')
    ensures Inv(Installed(s, i, w'), t, batches)
  {
    var w, s' := s.writers[i], Installed(s, i, w');
    assert w.writes[..w.done] == w.writes;
    BufferIsUpsertAll(s.rows, w.writes, w.buffer);
    SerialSnoc(t, batches, s.log, i);
    CommitKeepsWriters(s, i, w');
    assert forall j | 0 <= j < |s'.writers| :: s'.writers[j].writes == s.writers[j].writes;
  }

  lemma CommitKeepsWriters(s: State, i: nat, w': Writer)
    requires i < |s.writers| && Disjoint(s.writers) && forall j | 0 <= j < |s.writers| :: WriterOk(s.rows, s.writers[j])
    requires w'.buffer == map[] && WriterOk(s.rows, w')
    ensures var s' := Installed(s, i, w');
            Disjoint(s'.writers) && forall j | 0 <= j < |s'.writers| :: WriterOk(s'.rows, s'.writers[j])
  {
    var s' := Installed(s, i, w');
    forall j | 0 <= j < |s'.writers|
      ensures WriterOk(s'.rows, s'.writers[j])
    {
      WriterFramed(s.rows, s.writers[i].buffer, s'.writers[j]);
    }
  }

  lemma StepKeeps(s: State, step: Step, s': State, t: Table, batches: seq<seq<Sample>>)
    requires Inv(s, t, batches) && Next(s, step, s')
    ensures Inv(s', t, batches)
  {
    match step
    case Exec(i) => ExecKeeps(s, i, s', t, batches);
    case Fail(i, err, slept) => FailKeeps(s, i, err, slept, t, batches);
    case CommitOk(i) =>
      CommitKeeps(s, i, s.writers[i].(status := Finished(None), buffer := map[]), t, batches);
    case CommitLost(i, err, applied, slept) =>
      FailKeeps(s, i, s.writers[i].InDoubt(err), slept, t, batches);
      if applied {
        FailKeepsWriter(s.rows, s.writers[i], s.writers[i].InDoubt(err), slept);
        CommitKeeps(s, i, s.writers[i].FailedWith(s.writers[i].InDoubt(err), slept), t, batches);
      }
  }

  ghost function BatchesOf(s: State): seq<seq<Sample>> {
    seq(|s.writers|, i requires 0 <= i < |s.writers| => s.writers[i].writes)
  }

  lemma InitEstablishes(s: State)
    requires Init(s)
    ensures Inv(s, s.rows, BatchesOf(s))
  {
    forall i | 0 <= i < |s.writers|
      ensures WriterOk(s.rows, s.writers[i]) && s.writers[i].buffer == map[]
    {
      assert s.writers[i] in s.writers && s.writers[i].writes[..0] == [];
    }
  }

  lemma {:induction false} RunKeeps(states: seq<State>, steps: seq<Step>, n: nat)
    requires IsRun(states, steps) && n <= |steps|
    ensures Inv(states[n], states[0].rows, BatchesOf(states[0]))
  {
    if n == 0 {
      InitEstablishes(states[0]);
    } else {
      RunKeeps(states, steps, n - 1);
      StepKeeps(states[n - 1], steps[n - 1], states[n], states[0].rows, BatchesOf(states[0]));
    }
  }

  /**
   * Serializability. At every point of every run, however the writers
   * interleave, wait, fail, start over and commit, the committed rows are what
   * the committed batches make of the initial ones when run alone, one after
   * another, in commit order; none of those runs overflows.
   */
  lemma Serializable(states: seq<State>, steps: seq<Step>, n: nat)
    requires IsRun(states, steps) && n <= |steps|
    ensures var batches := BatchesOf(states[0]);
            && Batches(batches) && (forall m | 0 <= m < |states[n].log| :: states[n].log[m] < |batches|)
            && Serial(states[0].rows, batches, states[n].log) == Some(states[n].rows)
  {
    RunKeeps(states, steps, n);
  }

  /** The writers whose commit took effect, in that order. */
  ghost function Committed(steps: seq<Step>): seq<nat> {
    if steps == [] then []
    else
      var step := steps[|steps| - 1];
      Committed(steps[..|steps| - 1])
      + if step.CommitOk? || (step.CommitLost? && step.applied) then [step.i] else []
  }

  /** The log is the order of the commits that took effect, whether or not the client was told. */
  lemma {:induction false} LogIsCommitOrder(states: seq<State>, steps: seq<Step>, n: nat)
    requires IsRun(states, steps) && n <= |steps|
    ensures states[n].log == Committed(steps[..n])
  {
    if n > 0 {
      LogIsCommitOrder(states, steps, n - 1);
      assert Next(states[n - 1], steps[n - 1], states[n]);
      assert steps[..n][..n - 1] == steps[..n - 1];
    }
  }

  /**
   * A failed attempt starts over, with nothing kept of it, exactly when its
   * error passes by itself, an attempt is left and the pause is slept through;
   * otherwise its error is what the caller gets. Either way its locks are gone.
   */
  lemma FailureStartsOverExactlyWhen(s: State, i: nat, err: Error, slept: bool, s': State)
    requires Next(s, Fail(i, err, slept), s')
    ensures var w, w' := s.writers[i], s'.writers[i];
            && w'.buffer == map[] && w'.writes == w.writes && s'.rows == s.rows && s'.log == s.log
            && (w'.status.Running? <==> IsRetriablePgError(err) && w.attempt < 3 && slept)
            && (w'.status.Running? ==> w'.attempt == w.attempt + 1 && w'.done == 0)
            && (w'.status.Finished? ==> w'.status.err == Some(err))
            && forall j | 0 <= j < |s.writers| && j != i :: s'.writers[j] == s.writers[j]
  {
  }

  // ---------------------------------------------------------------- how often a call is applied

  /** How many commits of writer i the log records. */
  ghost function Commits(log: seq<nat>, i: nat): nat {
    if log == [] then 0
    else Commits(log[..|log| - 1], i) + if log[|log| - 1] == i then 1 else 0
  }

  ghost predicate AppliedAsTold(w: Writer, commits: nat) {
    if w.marks then
      match w.status
      case Running => commits == 0
      case Finished(None) => commits == 1
      case Finished(Some(e)) => commits <= 1 && (!e.HasCommitError() ==> commits == 0)
    else
      match w.status
      case Running => commits <= w.attempt
      case Finished(None) => 1 <= commits <= w.attempt + 1
      case Finished(Some(_)) => commits <= w.attempt + 1
  }

  ghost predicate AllAppliedAsTold(s: State) {
    forall i | 0 <= i < |s.writers| :: AppliedAsTold(s.writers[i], Commits(s.log, i))
  }

  lemma CommitsSnoc(log: seq<nat>, j: nat, i: nat)
    ensures Commits(log + [j], i) == Commits(log, i) + if j == i then 1 else 0
  {
    assert (log + [j])[..|log + [j]| - 1] == log;
  }

  /** The marker is what keeps a commit in doubt from being replayed. */
  lemma InDoubtIsFinal(w: Writer, err: Error, slept: bool)
    requires w.marks
    ensures w.FailedWith(w.InDoubt(err), slept).status == Finished(Some(w.InDoubt(err)))
    ensures w.InDoubt(err).HasCommitError()
  {
    assert CommitError(err).HasCommitError();
    assert !IsRetriablePgError(w.InDoubt(err));
  }

  lemma StepKeepsCounts(s: State, step: Step, s': State)
    requires AllAppliedAsTold(s) && Next(s, step, s')
    ensures AllAppliedAsTold(s')
  {
    forall j | 0 <= j < |s'.writers|
      ensures AppliedAsTold(s'.writers[j], Commits(s'.log, j))
    {
      CommitsSnoc(s.log, step.i, j);
      var w := s.writers[step.i];
      if j == step.i && step.CommitLost? && w.marks {
        InDoubtIsFinal(w, step.err, step.slept);
      }
    }
  }

  /**
   * At every point of every run: a batch has been applied at most once, exactly
   * once if its call returned nil, and not at all if it failed other than in
   * its commit. A one-row upsert that returned nil has been applied at least
   * once and at most once per attempt, of which there are at most four.
   */
  lemma {:induction false} AppliedAsToldAlways(states: seq<State>, steps: seq<Step>, n: nat)
    requires IsRun(states, steps) && n <= |steps|
    ensures AllAppliedAsTold(states[n])
    ensures forall w | w in states[n].writers :: w.attempt < 4
  {
    if n == 0 {
      forall i | 0 <= i < |states[0].writers|
        ensures AppliedAsTold(states[0].writers[i], Commits([], i))
      {
        assert states[0].writers[i] in states[0].writers;
      }
    } else {
      AppliedAsToldAlways(states, steps, n - 1);
      StepKeepsCounts(states[n - 1], steps[n - 1], states[n]);
    }
    RunKeeps(states, steps, n);
  }

  // ---------------------------------------------------------------- waiting

  /** Writer i wants a row that writer j has written in its open transaction. */
  ghost predicate WaitsFor(s: State, i: nat, j: nat) {
    && i < |s.writers| && j < |s.writers| && i != j
    && s.writers[i].Wanting() && s.writers[i].Want() in s.writers[j].buffer
  }

  /** Whoever is waited for and waits itself wants a greater row. */
  lemma WaitingClimbs(s: State, t: Table, batches: seq<seq<Sample>>, i: nat, j: nat)
    requires Inv(s, t, batches) && WaitsFor(s, i, j)
    ensures s.writers[j].status.Running?
    ensures s.writers[j].Wanting() ==> KeyLess(s.writers[i].Want(), s.writers[j].Want())
  {
    var w := s.writers[j];
    assert WriterOk(s.rows, w);
    if w.Wanting() {
      HeldBeforeWanted(w, s.writers[i].Want());
    }
  }

  /** A chain of writers each waiting for the next. */
  ghost predicate WaitChain(s: State, path: seq<nat>) {
    forall n | 0 <= n < |path| - 1 :: WaitsFor(s, path[n], path[n + 1])
  }

  lemma {:induction false} ChainClimbs(s: State, t: Table, batches: seq<seq<Sample>>, path: seq<nat>)
    requires Inv(s, t, batches) && |path| >= 2 && WaitChain(s, path)
    requires path[|path| - 1] < |s.writers| && s.writers[path[|path| - 1]].Wanting()
    ensures WaitsFor(s, path[0], path[1])
    ensures KeyLess(s.writers[path[0]].Want(), s.writers[path[|path| - 1]].Want())
  {
    var m := |path| - 2;
    assert WaitsFor(s, path[m], path[m + 1]);
    WaitingClimbs(s, t, batches, path[m], path[m + 1]);
    if m > 0 {
      var front := path[..m + 1];
      forall n | 0 <= n < |front| - 1
        ensures WaitsFor(s, front[n], front[n + 1])
      {
        assert WaitsFor(s, path[n], path[n + 1]);
      }
      ChainClimbs(s, t, batches, front);
      KeyLessTransitive(s.writers[path[0]].Want(), s.writers[path[m]].Want(), s.writers[path[m + 1]].Want());
    }
  }

  /** Deadlock freedom: in no reachable state do writers wait for each other in a circle. */
  lemma NoWaitCycle(states: seq<State>, steps: seq<Step>, n: nat, path: seq<nat>)
    requires IsRun(states, steps) && n <= |steps|
    requires |path| >= 2 && WaitChain(states[n], path)
    ensures path[0] != path[|path| - 1]
  {
    RunKeeps(states, steps, n);
    if path[0] == path[|path| - 1] {
      assert WaitsFor(states[n], path[0], path[1]);
      ChainClimbs(states[n], states[0].rows, BatchesOf(states[0]), path);
      KeyLessIrreflexive(states[n].writers[path[0]].Want());
    }
  }

  /** Writer i has its next row to itself, or only its commit left. */
  ghost predicate Unblocked(s: State, i: nat) {
    && i < |s.writers|
    && (s.writers[i].Finishing() || (s.writers[i].Wanting() && Free(s, i, s.writers[i].Want())))
  }

  /** Following the waits from any open transaction leads to one that can go on. */
  lemma {:induction false} SomeoneUnblocked(s: State, t: Table, batches: seq<seq<Sample>>, i: nat, above: set<nat>)
    returns (j: nat)
    requires Inv(s, t, batches) && i < |s.writers| && s.writers[i].status.Running?
    requires forall m | 0 <= m < |s.writers| && s.writers[m].Wanting() && s.writers[i].Wanting()
                        && KeyLess(s.writers[i].Want(), s.writers[m].Want()) :: m in above
    ensures Unblocked(s, j)
    decreases above
  {
    if Unblocked(s, i) {
      return i;
    }
    var m := WaitedFor(s, t, batches, i);
    if s.writers[m].Finishing() {
      return m;
    }
    forall x | 0 <= x < |s.writers| && s.writers[x].Wanting() && KeyLess(s.writers[m].Want(), s.writers[x].Want())
      ensures x in above - {m}
    {
      KeyLessTransitive(s.writers[i].Want(), s.writers[m].Want(), s.writers[x].Want());
      KeyLessIrreflexive(s.writers[m].Want());
    }
    j := SomeoneUnblocked(s, t, batches, m, above - {m});
  }

  /** A writer that is held up waits for another, which has only its commit left or wants a greater row. */
  lemma WaitedFor(s: State, t: Table, batches: seq<seq<Sample>>, i: nat) returns (m: nat)
    requires Inv(s, t, batches) && i < |s.writers| && s.writers[i].status.Running? && !Unblocked(s, i)
    ensures m < |s.writers| && m != i && s.writers[i].Wanting() && s.writers[m].status.Running?
    ensures s.writers[m].Finishing() || (s.writers[m].Wanting() && KeyLess(s.writers[i].Want(), s.writers[m].Want()))
  {
    m :| 0 <= m < |s.writers| && m != i && s.writers[i].Want() in s.writers[m].buffer;
    WaitingClimbs(s, t, batches, i, m);
  }

  /** A writer that is unblocked commits, writes its row, or is told the sum overflows: it does not wait. */
  lemma UnblockedMoves(s: State, t: Table, batches: seq<seq<Sample>>, i: nat) returns (step: Step, s': State)
    requires Inv(s, t, batches) && Unblocked(s, i)
    ensures Next(s, step, s') && step.i == i
    ensures step.Exec? || step.CommitOk? || step == Fail(i, Pg(NUMERIC_OUT_OF_RANGE), true)
    ensures step.Fail? ==> s'.writers[i].status == Finished(Some(step.err))
  {
    var w := s.writers[i];
    assert WriterOk(s.rows, w);
    if w.Finishing() {
      step := CommitOk(i);
      s' := Installed(s, i, w.(status := Finished(None), buffer := map[]));
      return;
    }
    assert w.writes[w.done] in w.writes;
    var row := NextRow(s.rows, w);
    if row.Some? {
      step := Exec(i);
      s' := WithWriter(s, i, Executed(w, row.value));
    } else {
      step := Fail(i, Pg(NUMERIC_OUT_OF_RANGE), true);
      s' := WithWriter(s, i, w.FailedWith(step.err, true));
    }
  }

  ghost function Indices(n: nat): (below: set<nat>)
    ensures forall m: int :: m in below <==> 0 <= m < n
  {
    if n == 0 then {} else Indices(n - 1) + {n - 1}
  }

  /** Progress: while a transaction is open, some writer has a step to take that no other can hold up. */
  lemma AlwaysSomeStep(states: seq<State>, steps: seq<Step>, n: nat, i: nat) returns (step: Step, s': State)
    requires IsRun(states, steps) && n <= |steps|
    requires i < |states[n].writers| && states[n].writers[i].status.Running?
    ensures Next(states[n], step, s') && Unblocked(states[n], step.i)
    ensures step.Exec? || step.CommitOk? || (step.Fail? && step.err == Pg(NUMERIC_OUT_OF_RANGE))
  {
    RunKeeps(states, steps, n);
    var s, t, batches := states[n], states[0].rows, BatchesOf(states[0]);
    var j := SomeoneUnblocked(s, t, batches, i, Indices(|s.writers|));
    step, s' := UnblockedMoves(s, t, batches, j);
  }

  // ---------------------------------------------------------------- termination

  /** The most steps a writer can still take, its remaining attempts included. */
  ghost function Work(w: Writer): nat {
    if w.status.Finished? || w.done > |w.writes| || w.attempt > 3 then 0
    else (3 - w.attempt) * (|w.writes| + 1) + (|w.writes| - w.done + 1)
  }

  ghost function TotalWork(writers: seq<Writer>): nat {
    if writers == [] then 0 else TotalWork(writers[..|writers| - 1]) + Work(writers[|writers| - 1])
  }

  lemma {:induction false} TotalWorkUpdate(writers: seq<Writer>, i: nat, w: Writer)
    requires i < |writers|
    ensures TotalWork(writers[i := w]) == TotalWork(writers) - Work(writers[i]) + Work(w)
  {
    var front := writers[..|writers| - 1];
    if i == |front| {
      assert writers[i := w][..|writers| - 1] == front;
    } else {
      assert writers[i := w][..|writers| - 1] == front[i := w];
      TotalWorkUpdate(front, i, w);
    }
  }

  lemma FailureCostsWork(w: Writer, err: Error, slept: bool)
    requires w.status.Running? && w.done <= |w.writes| && w.attempt <= 3
    ensures Work(w.FailedWith(err, slept)) < Work(w)
  {
    var l := |w.writes| + 1;
    assert w.attempt < 3 ==> (3 - w.attempt) * l == (3 - w.attempt - 1) * l + l;
  }

  lemma MoveCostsWork(s: State, step: Step, s': State)
    requires Next(s, step, s') && WriterOk(s.rows, s.writers[step.i])
    ensures |s'.writers| == |s.writers| && s'.writers == s.writers[step.i := s'.writers[step.i]]
    ensures Work(s'.writers[step.i]) < Work(s.writers[step.i])
  {
    var w := s.writers[step.i];
    match step
    case Exec(i) =>
    case Fail(i, err, slept) => FailureCostsWork(w, err, slept);
    case CommitOk(i) =>
    case CommitLost(i, err, applied, slept) => FailureCostsWork(w, w.InDoubt(err), slept);
  }

  lemma StepCostsWork(s: State, step: Step, s': State, t: Table, batches: seq<seq<Sample>>)
    requires Inv(s, t, batches) && Next(s, step, s')
    ensures TotalWork(s'.writers) < TotalWork(s.writers)
  {
    assert WriterOk(s.rows, s.writers[step.i]);
    MoveCostsWork(s, step, s');
    TotalWorkUpdate(s.writers, step.i, s'.writers[step.i]);
  }

  lemma RunStepCostsWork(states: seq<State>, steps: seq<Step>, n: nat)
    requires IsRun(states, steps) && n < |steps|
    ensures TotalWork(states[n + 1].writers) < TotalWork(states[n].writers)
  {
    RunKeeps(states, steps, n);
    StepCostsWork(states[n], steps[n], states[n + 1], states[0].rows, BatchesOf(states[0]));
  }

  /** Every run is finite, faults and repetitions included: it is no longer than the work there was at the start. */
  lemma {:induction false} RunsAreBounded(states: seq<State>, steps: seq<Step>, n: nat)
    requires IsRun(states, steps) && n <= |steps|
    ensures n + TotalWork(states[n].writers) <= TotalWork(states[0].writers)
  {
    if n > 0 {
      RunsAreBounded(states, steps, n - 1);
      RunStepCostsWork(states, steps, n - 1);
    }
  }

  /** What readers find after the commits in log, computed in memory. */
  ghost function SerialMeaning(s: Store, batches: seq<seq<Sample>>, log: seq<nat>): Store
    requires forall n | 0 <= n < |log| :: log[n] < |batches|
  {
    if log == [] then s
    else ApplyAll(SerialMeaning(s, batches, log[..|log| - 1]), batches[log[|log| - 1]])
  }

  /** The committed table always reads like a map store that was given the committed batches one at a time. */
  lemma {:induction false} SerialMeansApplyAll(t: Table, batches: seq<seq<Sample>>, log: seq<nat>)
    requires Batches(batches) && (forall n | 0 <= n < |log| :: log[n] < |batches|)
    requires Serial(t, batches, log).Some?
    ensures Abs(Serial(t, batches, log).value) == SerialMeaning(Abs(t), batches, log)
  {
    if log != [] {
      var front := log[..|log| - 1];
      SerialMeansApplyAll(t, batches, front);
      UpsertAllSimulates(Serial(t, batches, front).value, batches[log[|log| - 1]]);
    }
  }

  /** The batches the writers got are the folds of what their callers passed. */
  ghost predicate AreFoldsOf(batches: seq<seq<Sample>>, raws: seq<seq<Sample>>) {
    |raws| == |batches| && forall i | 0 <= i < |raws| :: Wellformed(raws[i]) && IsFold(batches[i], raws[i])
  }

  lemma {:induction false} FoldsMeanRaws(s: Store, batches: seq<seq<Sample>>, raws: seq<seq<Sample>>, log: seq<nat>)
    requires AreFoldsOf(batches, raws) && forall n | 0 <= n < |log| :: log[n] < |batches|
    ensures SerialMeaning(s, batches, log) == SerialMeaning(s, raws, log)
  {
    if log != [] {
      var front, i := log[..|log| - 1], log[|log| - 1];
      FoldsMeanRaws(s, batches, raws, front);
      FoldPreservesMeaning(SerialMeaning(s, raws, front), batches[i], raws[i]);
    }
  }

  /**
   * From the callers' side: whatever interleaves, the committed table reads
   * like a map store that was given the raw batches of the committed calls, one
   * at a time in commit order, every batch metric by metric.
   */
  lemma CommittedTableMeansRawBatches(states: seq<State>, steps: seq<Step>, n: nat, raws: seq<seq<Sample>>)
    requires IsRun(states, steps) && n <= |steps| && AreFoldsOf(BatchesOf(states[0]), raws)
    ensures forall m | 0 <= m < |states[n].log| :: states[n].log[m] < |raws|
    ensures Abs(states[n].rows) == SerialMeaning(Abs(states[0].rows), raws, states[n].log)
  {
    var batches := BatchesOf(states[0]);
    Serializable(states, steps, n);
    SerialMeansApplyAll(states[0].rows, batches, states[n].log);
    FoldsMeanRaws(Abs(states[0].rows), batches, raws, states[n].log);
  }
}
