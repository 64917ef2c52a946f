/**
 * Gauge upserts repeated after a lost answer, among other writers: when the
 * repetition changes nothing, and the run in which it undoes a newer value.
 */
module Replays {
  import opened Wrappers
  import opened Models
  import opened Batch
  import opened PgErrors
  import opened Postgres
  import opened Transactions

  /** The value the last committed batch that writes gauge k gave it. */
  ghost function LastCommitted(batches: seq<seq<Sample>>, log: seq<nat>, k: Key): Option<Float64>
    requires forall n | 0 <= n < |log| :: log[n] < |batches|
  {
    if log == [] then None
    else if k in Keys(batches[log[|log| - 1]]) then LastValue(batches[log[|log| - 1]], k)
    else LastCommitted(batches, log[..|log| - 1], k)
  }

  /** Commit q of the log is the last that writes k. */
  ghost predicate IsLastWriteOf(batches: seq<seq<Sample>>, log: seq<nat>, k: Key, q: int)
    requires forall n | 0 <= n < |log| :: log[n] < |batches|
  {
    && 0 <= q < |log| && k in Keys(batches[log[q]])
    && forall r | q < r < |log| :: k !in Keys(batches[log[r]])
  }

  /** The last commit that wrote k wrote another value than v. */
  ghost predicate Overwritten(batches: seq<seq<Sample>>, log: seq<nat>, k: Key, v: Float64)
    requires forall n | 0 <= n < |log| :: log[n] < |batches|
  {
    exists q :: IsLastWriteOf(batches, log, k, q) && LastValue(batches[log[q]], k) != Some(v)
  }

  lemma NoWriteAfterLast(batches: seq<seq<Sample>>, log: seq<nat>, k: Key, q: nat, p: nat)
    requires (forall n | 0 <= n < |log| :: log[n] < |batches|) && IsLastWriteOf(batches, log, k, q)
    requires p < |log| && k in Keys(batches[log[p]])
    ensures p <= q
  {
  }

  lemma {:induction false} LastWriteIsLastCommitted(batches: seq<seq<Sample>>, log: seq<nat>, k: Key, q: nat)
    requires (forall n | 0 <= n < |log| :: log[n] < |batches|) && IsLastWriteOf(batches, log, k, q)
    ensures LastCommitted(batches, log, k) == LastValue(batches[log[q]], k)
  {
    if q < |log| - 1 {
      var front := log[..|log| - 1];
      assert forall r | 0 <= r < |front| :: front[r] == log[r];
      LastWriteIsLastCommitted(batches, front, k, q);
    }
  }

  lemma {:induction false} SomeLastWrite(batches: seq<seq<Sample>>, log: seq<nat>, k: Key, p: nat) returns (q: nat)
    requires (forall n | 0 <= n < |log| :: log[n] < |batches|) && p < |log| && k in Keys(batches[log[p]])
    ensures p <= q && IsLastWriteOf(batches, log, k, q)
  {
    var last := |log| - 1;
    if k in Keys(batches[log[last]]) {
      q := last;
    } else {
      var front := log[..last];
      assert forall r | 0 <= r < |front| :: front[r] == log[r];
      q := SomeLastWrite(batches, front, k, p);
      assert forall r | q < r < |log| :: r < last ==> front[r] == log[r];
    }
  }

  /** What the committed rows hold of a gauge is what its last committed writer gave it. */
  lemma {:induction false} LastCommittedStands(t: Table, batches: seq<seq<Sample>>, log: seq<nat>, id: string)
    requires Batches(batches) && (forall n | 0 <= n < |log| :: log[n] < |batches|) && Serial(t, batches, log).Some?
    ensures var v := LastCommitted(batches, log, Key(GAUGE, id));
            v.Some? ==> RowAt(Serial(t, batches, log).value, Key(GAUGE, id)).value == v
  {
    if log != [] {
      var front, ws := log[..|log| - 1], batches[log[|log| - 1]];
      var before := Serial(t, batches, front).value;
      LastCommittedStands(t, batches, front, id);
      UpsertAllSimulates(before, ws);
      ApplyAllPerKey(Abs(before), ws, id);
    }
  }

  /** One gauge upsert leaves the table alone exactly when it holds the value already. */
  lemma GaugeUpsertChangesNothingExactlyWhen(t: Table, id: string, v: Float64)
    requires Wellformed([GaugeSample(id, v)])
    ensures UpsertAll(t, [GaugeSample(id, v)]) == Some(t) <==> RowAt(t, Key(GAUGE, id)).value == Some(v)
  {
    var m, k := GaugeSample(id, v), Key(GAUGE, id);
    assert [m] == [] + [m];
    UpsertAllSnoc(t, [], m);
    if RowAt(t, k).value == Some(v) {
      assert t[k := RowAt(t, k)] == t;
    }
  }

  /** Writer i, whose only write is of k, commits again after having committed before. */
  ghost predicate Recommits(states: seq<State>, steps: seq<Step>, n: nat, id: string, v: Float64)
    requires IsRun(states, steps) && n < |steps|
  {
    var i := steps[n].i;
    && i < |states[n].writers| && states[n].writers[i].writes == [GaugeSample(id, v)]
    && i in states[n].log && states[n + 1].log == states[n].log + [i]
  }

  lemma ReplayedRows(states: seq<State>, steps: seq<Step>, n: nat, id: string, v: Float64)
    requires IsRun(states, steps) && n < |steps| && Recommits(states, steps, n, id, v)
    ensures Wellformed([GaugeSample(id, v)])
    ensures UpsertAll(states[n].rows, [GaugeSample(id, v)]) == Some(states[n + 1].rows)
    ensures steps[n].i < |BatchesOf(states[0])| && BatchesOf(states[0])[steps[n].i] == [GaugeSample(id, v)]
  {
    var batches, i := BatchesOf(states[0]), steps[n].i;
    RunKeeps(states, steps, n);
    RunKeeps(states, steps, n + 1);
    SerialSnoc(states[0].rows, batches, states[n].log, i);
  }

  /**
   * Repeating a gauge upsert that had been applied leaves the table as it is
   * exactly when no later commit gave the gauge another value that still
   * stands. It does so in particular when nobody else has committed the gauge
   * since.
   */
  lemma GaugeReplayExactlyWhen(states: seq<State>, steps: seq<Step>, n: nat, id: string, v: Float64)
    requires IsRun(states, steps) && n < |steps| && Recommits(states, steps, n, id, v)
    ensures forall m | 0 <= m < |states[n].log| :: states[n].log[m] < |BatchesOf(states[0])|
    ensures states[n + 1].rows == states[n].rows
        <==> !Overwritten(BatchesOf(states[0]), states[n].log, Key(GAUGE, id), v)
  {
    var batches, log, k := BatchesOf(states[0]), states[n].log, Key(GAUGE, id);
    Serializable(states, steps, n);
    ReplayedRows(states, steps, n, id, v);
    var p :| 0 <= p < |log| && log[p] == steps[n].i;
    OwnWrite(id, v);
    var q := SomeLastWrite(batches, log, k, p);
    LastWriteIsLastCommitted(batches, log, k, q);
    KeysAreTyped(batches[log[q]], k);
    LastCommittedStands(states[0].rows, batches, log, id);
    GaugeUpsertChangesNothingExactlyWhen(states[n].rows, id, v);
    forall r | IsLastWriteOf(batches, log, k, r)
      ensures r == q
    {
      NoWriteAfterLast(batches, log, k, r, q);
      NoWriteAfterLast(batches, log, k, q, r);
    }
  }

  lemma OwnWrite(id: string, v: Float64)
    ensures Key(GAUGE, id) in Keys([GaugeSample(id, v)]) && LastValue([GaugeSample(id, v)], Key(GAUGE, id)) == Some(v)
  {
    var ms := [GaugeSample(id, v)];
    assert ms[0] in ms && ms == [] + ms;
    FoldedSnoc([], ms[0], Key(GAUGE, id));
  }

  /** If nobody else has committed the gauge since the writer first did, it is not overwritten. */
  lemma AloneIsNotOverwritten(batches: seq<seq<Sample>>, log: seq<nat>, id: string, v: Float64, p: nat)
    requires (forall n | 0 <= n < |log| :: log[n] < |batches|) && p < |log| && batches[log[p]] == [GaugeSample(id, v)]
    requires forall r | p < r < |log| && Key(GAUGE, id) in Keys(batches[log[r]]) :: log[r] == log[p]
    ensures !Overwritten(batches, log, Key(GAUGE, id), v)
  {
    var k := Key(GAUGE, id);
    OwnWrite(id, v);
    forall q | IsLastWriteOf(batches, log, k, q)
      ensures LastValue(batches[log[q]], k) == Some(v)
    {
      NoWriteAfterLast(batches, log, k, q, p);
    }
  }

  // ---------------------------------------------------------------- the run that undoes a newer value

  const NAME := "g"

  function Starting(v: Float64): Writer {
    Writer([GaugeSample(NAME, v)], false, Running, 0, 0, map[])
  }

  function Holding(v: Float64, attempt: nat): Writer {
    Writer([GaugeSample(NAME, v)], false, Running, attempt, 1, map[Key(GAUGE, NAME) := Row(None, Some(v))])
  }

  function Over(v: Float64, attempt: nat): Writer {
    Writer([GaugeSample(NAME, v)], false, Finished(None), attempt, 1, map[])
  }

  function Holds(v: Float64): Table {
    map[Key(GAUGE, NAME) := Row(None, Some(v))]
  }

  /** The row a writer makes, with nothing or another value in the table. */
  lemma WriterMakes(rows: Table, v: Float64, attempt: nat)
    requires rows == map[] || exists u :: rows == Holds(u)
    ensures var w := Starting(v).(attempt := attempt);
            && w.Wanting() && w.Want() == Key(GAUGE, NAME) && NextRow(rows, w) == Some(Row(None, Some(v)))
            && Executed(w, Row(None, Some(v))) == Holding(v, attempt)
            && rows + Holding(v, attempt).buffer == Holds(v)
  {
    var w := Starting(v).(attempt := attempt);
    assert rows + w.buffer == rows;
    assert rows + Holding(v, attempt).buffer == Holds(v);
  }

  /** What the states of the run are: two writers of one gauge. */
  function Overwriting(u: Float64, v: Float64): seq<State> {
    [ State(map[], [Starting(u), Starting(v)], []),
      State(map[], [Holding(u, 0), Starting(v)], []),
      State(Holds(u), [Starting(u).(attempt := 1), Starting(v)], [0]),
      State(Holds(u), [Starting(u).(attempt := 1), Holding(v, 0)], [0]),
      State(Holds(v), [Starting(u).(attempt := 1), Over(v, 0)], [0, 1]),
      State(Holds(v), [Holding(u, 1), Over(v, 0)], [0, 1]),
      State(Holds(u), [Over(u, 1), Over(v, 0)], [0, 1, 0]) ]
  }

  const OVERWRITING: seq<Step> :=
    [Exec(0), CommitLost(0, Plain(ConnReset), true, true), Exec(1), CommitOk(1), Exec(0), CommitOk(0)]

  /** Writer 0 writes its row. */
  lemma FirstHalf(u: Float64, v: Float64)
    ensures var s := Overwriting(u, v);
            && Next(s[0], OVERWRITING[0], s[1]) && Next(s[1], OVERWRITING[1], s[2]) && Next(s[2], OVERWRITING[2], s[3])
  {
    var s := Overwriting(u, v);
    WriterMakes(map[], u, 0);
    WriterMakes(Holds(u), v, 0);
    assert s[1].writers == s[0].writers[0 := Holding(u, 0)];
    assert IsRetriablePgError(Plain(ConnReset));
    assert Holding(u, 0).FailedWith(Plain(ConnReset), true) == Starting(u).(attempt := 1);
    assert s[2].writers == s[1].writers[0 := Starting(u).(attempt := 1)];
    assert s[3].writers == s[2].writers[1 := Holding(v, 0)];
  }

  lemma SecondHalf(u: Float64, v: Float64)
    ensures var s := Overwriting(u, v);
            && Next(s[3], OVERWRITING[3], s[4]) && Next(s[4], OVERWRITING[4], s[5]) && Next(s[5], OVERWRITING[5], s[6])
  {
    var s := Overwriting(u, v);
    WriterMakes(Holds(u), v, 0);
    WriterMakes(Holds(v), u, 1);
    assert s[4].writers == s[3].writers[1 := Over(v, 0)] && s[4].log == s[3].log + [1];
    assert s[5].writers == s[4].writers[0 := Holding(u, 1)];
    assert s[6].writers == s[5].writers[0 := Over(u, 1)] && s[6].log == s[5].log + [0];
  }

  /**
   * Two callers set one gauge. The first loses the answer to its upsert, the
   * second sets the gauge and is told so, then the first repeats its upsert and
   * is told so too: the newer value is gone.
   */
  lemma ReplayUndoesNewerValue(u: Float64, v: Float64)
    ensures var s := Overwriting(u, v);
            && IsRun(s, OVERWRITING)
            && s[4].writers[1].status == Finished(None) && s[4].rows == Holds(v)
            && s[6].writers[0].status == s[6].writers[1].status == Finished(None)
            && s[6].log == [0, 1, 0] && s[6].rows == Holds(u)
  {
    var s := Overwriting(u, v);
    FirstHalf(u, v);
    SecondHalf(u, v);
    assert forall w | w in s[0].writers :: w == Starting(u) || w == Starting(v);
    forall n | 0 <= n < |OVERWRITING|
      ensures Next(s[n], OVERWRITING[n], s[n + 1])
    {
      assert n == 0 || n == 1 || n == 2 || n == 3 || n == 4 || n == 5;
    }
  }
}
