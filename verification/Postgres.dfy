/** PgStorage: metrics kept in one table, every call repeated while the database is briefly gone. */
module Postgres {
  import opened Wrappers
  import opened GoInt
  import opened Models
  import opened Batch
  import opened Memory

  /** The nullable columns of a row; the primary key is the metric's own. */
  datatype Row = Row(delta: Option<Int64>, value: Option<Float64>)

  type Table = map<Key, Row>

  predicate InRange(x: int) {
    -TWO_63 <= x < TWO_63
  }

  /** A row that is not there yet starts with both columns NULL. */
  function RowAt(t: Table, k: Key): Row {
    if k in t then t[k] else Row(None, None)
  }

  /** COALESCE(delta, 0) of the row. */
  function Sum(r: Row): Int64 {
    if r.delta.Some? then r.delta.value else 0
  }

  /** The conflict clause of the two upserts; None when the sum leaves bigint. */
  function UpsertRow(r: Row, w: Sample): Option<Row>
    requires Problem(w).None?
  {
    if w.mtype == GAUGE then Some(r.(value := w.value))
    else if InRange(Sum(r) + w.delta.value) then Some(r.(delta := Some(Sum(r) + w.delta.value)))
    else None
  }

  function Upsert(t: Table, w: Sample): Option<Table>
    requires Problem(w).None?
  {
    var r := UpsertRow(RowAt(t, KeyOf(w)), w);
    if r.Some? then Some(t[KeyOf(w) := r.value]) else None
  }

  /** The statements of one transaction, each seeing what the ones before it wrote. */
  function UpsertAll(t: Table, ws: seq<Sample>): Option<Table>
    requires Wellformed(ws)
  {
    if ws == [] then Some(t)
    else
      assert ws[|ws| - 1] in ws && forall w | w in ws[..|ws| - 1] :: w in ws;
      var front := UpsertAll(t, ws[..|ws| - 1]);
      if front.Some? then Upsert(front.value, ws[|ws| - 1]) else None
  }

  lemma UpsertAllSnoc(t: Table, ws: seq<Sample>, w: Sample)
    requires Wellformed(ws) && Problem(w).None?
    ensures Wellformed(ws + [w])
    ensures UpsertAll(t, ws + [w]) == if UpsertAll(t, ws).Some? then Upsert(UpsertAll(t, ws).value, w) else None
  {
    assert (ws + [w])[..|ws + [w]| - 1] == ws;
  }

  /** The names the gauge rows with a value carry. */
  function GaugeNames(t: Table): (names: set<string>)
    ensures forall id :: id in names <==> RowAt(t, Key(GAUGE, id)).value.Some?
  {
    var names := set k | k in t && k.mtype == GAUGE && t[k].value.Some? :: k.id;
    assert forall id | RowAt(t, Key(GAUGE, id)).value.Some? :: Key(GAUGE, id).id in names;
    names
  }

  function CounterNames(t: Table): (names: set<string>)
    ensures forall id :: id in names <==> RowAt(t, Key(COUNTER, id)).delta.Some?
  {
    var names := set k | k in t && k.mtype == COUNTER && t[k].delta.Some? :: k.id;
    assert forall id | RowAt(t, Key(COUNTER, id)).delta.Some? :: Key(COUNTER, id).id in names;
    names
  }

  /** The rows SELECT ... WHERE mtype = $1 AND value IS NOT NULL returns. */
  function GaugeRows(t: Table): map<string, Float64> {
    map id | id in GaugeNames(t) :: RowAt(t, Key(GAUGE, id)).value.value
  }

  function CounterRows(t: Table): map<string, Int64> {
    map id | id in CounterNames(t) :: RowAt(t, Key(COUNTER, id)).delta.value
  }

  /** What readers see of a table: rows whose column is NULL hold no metric. */
  function Abs(t: Table): Store {
    Store(GaugeRows(t), CounterRows(t))
  }

  lemma AbsCounter(t: Table, id: string)
    ensures Abs(t).Counter(id) == Sum(RowAt(t, Key(COUNTER, id)))
  {
  }

  /** Rows that agree on a column look the same through it. */
  lemma GaugeColumnKept(t: Table, t': Table)
    requires forall id :: RowAt(t', Key(GAUGE, id)).value == RowAt(t, Key(GAUGE, id)).value
    ensures GaugeRows(t') == GaugeRows(t)
  {
    assert GaugeNames(t') == GaugeNames(t);
  }

  lemma CounterColumnKept(t: Table, t': Table)
    requires forall id :: RowAt(t', Key(COUNTER, id)).delta == RowAt(t, Key(COUNTER, id)).delta
    ensures CounterRows(t') == CounterRows(t)
  {
    assert CounterNames(t') == CounterNames(t);
  }

  /** The table with one column of one row replaced, the row being made if need be. */
  function WithValue(t: Table, id: string, v: Float64): Table {
    t[Key(GAUGE, id) := RowAt(t, Key(GAUGE, id)).(value := Some(v))]
  }

  function WithDelta(t: Table, id: string, sum: Int64): Table {
    t[Key(COUNTER, id) := RowAt(t, Key(COUNTER, id)).(delta := Some(sum))]
  }

  lemma WithValueSeen(t: Table, id: string, v: Float64)
    ensures Abs(WithValue(t, id, v)) == Abs(t).(gauges := Abs(t).gauges[id := v])
  {
    var t' := WithValue(t, id, v);
    CounterColumnKept(t, t');
    assert GaugeNames(t') == GaugeNames(t) + {id};
    assert GaugeRows(t') == GaugeRows(t)[id := v];
  }

  lemma WithDeltaSeen(t: Table, id: string, sum: Int64)
    ensures Abs(WithDelta(t, id, sum)) == Abs(t).(counters := Abs(t).counters[id := sum])
  {
    var t' := WithDelta(t, id, sum);
    GaugeColumnKept(t, t');
    assert CounterNames(t') == CounterNames(t) + {id};
    assert CounterRows(t') == CounterRows(t)[id := sum];
  }

  lemma CounterApplied(s: Store, id: string, d: Int64, sum: Int64)
    requires s.Counter(id) + d == sum
    ensures Apply(s, CounterSample(id, d)) == s.(counters := s.counters[id := sum])
  {
  }

  /** Adding to a row means adding to the counter, as long as the sum is a bigint. */
  lemma AdditionSimulates(t: Table, id: string, d: Int64, sum: Int64)
    requires Sum(RowAt(t, Key(COUNTER, id))) + d == sum
    ensures Abs(WithDelta(t, id, sum)) == Apply(Abs(t), CounterSample(id, d))
    ensures Apply(Abs(t), CounterSample(id, d)).Counter(id) == sum
  {
    AbsCounter(t, id);
    WithDeltaSeen(t, id, sum);
    CounterApplied(Abs(t), id, d, sum);
  }

  /** An upsert that does not overflow does to the table what the in-memory write does to the maps. */
  lemma UpsertSimulates(t: Table, w: Sample)
    requires Problem(w).None? && Upsert(t, w).Some?
    ensures Abs(Upsert(t, w).value) == Apply(Abs(t), w)
  {
    if w.mtype == GAUGE {
      assert Upsert(t, w).value == WithValue(t, w.id, w.value.value);
      WithValueSeen(t, w.id, w.value.value);
    } else {
      assert Upsert(t, w).value == WithDelta(t, w.id, Sum(RowAt(t, KeyOf(w))) + w.delta.value);
      AdditionSimulates(t, w.id, w.delta.value, Sum(RowAt(t, KeyOf(w))) + w.delta.value);
    }
  }

  lemma {:induction false} UpsertAllSimulates(t: Table, ws: seq<Sample>)
    requires Wellformed(ws) && UpsertAll(t, ws).Some?
    ensures Abs(UpsertAll(t, ws).value) == ApplyAll(Abs(t), ws)
  {
    if ws != [] {
      var front, w := ws[..|ws| - 1], ws[|ws| - 1];
      assert ws == front + [w] && w in ws && forall x | x in front :: x in ws;
      UpsertAllSnoc(t, front, w);
      UpsertAllSimulates(t, front);
      UpsertSimulates(UpsertAll(t, front).value, w);
    }
  }

  /** Rows a batch does not name stay as they are. */
  lemma {:induction false} UpsertAllElsewhere(t: Table, ws: seq<Sample>, k: Key)
    requires Wellformed(ws) && UpsertAll(t, ws).Some? && k !in Keys(ws)
    ensures RowAt(UpsertAll(t, ws).value, k) == RowAt(t, k)
  {
    if ws != [] {
      var front, w := ws[..|ws| - 1], ws[|ws| - 1];
      assert ws == front + [w];
      UpsertLast(t, front, w, ws);
      KeysSnoc(front, w);
      UpsertAllElsewhere(t, front, k);
    }
  }

  lemma {:induction false} UpsertAllOnce(t: Table, ws: seq<Sample>, i: nat)
    requires Wellformed(ws) && Increasing(ws) && UpsertAll(t, ws).Some? && i < |ws|
    ensures UpsertRow(RowAt(t, KeyOf(ws[i])), ws[i]) == Some(RowAt(UpsertAll(t, ws).value, KeyOf(ws[i])))
  {
    var front, w := ws[..|ws| - 1], ws[|ws| - 1];
    KeysWithoutLast(ws);
    assert Wellformed(front) && Increasing(front);
    UpsertLast(t, front, w, ws);
    if i < |front| {
      assert front[i] in front && KeyOf(front[i]) in Keys(front);
      UpsertAllOnce(t, front, i);
    } else {
      UpsertAllElsewhere(t, front, KeyOf(w));
    }
  }

  /** The last upsert writes its own row, and only that. */
  lemma UpsertLast(t: Table, front: seq<Sample>, w: Sample, ws: seq<Sample>)
    requires Wellformed(ws) && ws == front + [w] && UpsertAll(t, ws).Some?
    ensures Wellformed(front) && UpsertAll(t, front).Some?
    ensures var before, after := UpsertAll(t, front).value, UpsertAll(t, ws).value;
            && UpsertRow(RowAt(before, KeyOf(w)), w) == Some(RowAt(after, KeyOf(w)))
            && forall k | k != KeyOf(w) :: RowAt(after, k) == RowAt(before, k)
  {
    assert w in ws && forall x | x in front :: x in ws;
    UpsertAllSnoc(t, front, w);
  }

  /** A row written once by the batch ends as its single upsert leaves it; the other rows stay. */
  lemma UpsertAllAt(t: Table, ws: seq<Sample>, k: Key)
    requires Wellformed(ws) && Increasing(ws) && UpsertAll(t, ws).Some?
    ensures k !in Keys(ws) ==> RowAt(UpsertAll(t, ws).value, k) == RowAt(t, k)
    ensures forall w | w in ws && KeyOf(w) == k :: UpsertRow(RowAt(t, k), w) == Some(RowAt(UpsertAll(t, ws).value, k))
  {
    if k !in Keys(ws) {
      UpsertAllElsewhere(t, ws, k);
    }
    forall w | w in ws && KeyOf(w) == k
      ensures UpsertRow(RowAt(t, k), w) == Some(RowAt(UpsertAll(t, ws).value, k))
    {
      var i :| 0 <= i < |ws| && ws[i] == w;
      UpsertAllOnce(t, ws, i);
    }
  }

  /** A sorted batch goes through exactly when none of its sums leaves bigint. */
  lemma {:induction false} UpsertAllSucceeds(t: Table, ws: seq<Sample>)
    requires Wellformed(ws) && Increasing(ws)
    ensures UpsertAll(t, ws).Some?
        <==> forall w | w in ws && w.mtype == COUNTER :: InRange(Sum(RowAt(t, KeyOf(w))) + w.delta.value)
  {
    if ws != [] {
      var front, w := ws[..|ws| - 1], ws[|ws| - 1];
      assert ws == front + [w] && w in ws && forall x | x in front :: x in ws;
      UpsertAllSnoc(t, front, w);
      KeysWithoutLast(ws);
      UpsertAllSucceeds(t, front);
      if UpsertAll(t, front).Some? {
        UpsertAllElsewhere(t, front, KeyOf(w));
        assert UpsertAll(t, ws) == Upsert(UpsertAll(t, front).value, w);
      }
    }
  }

  // ---------------------------------------------------------------- the two backends side by side

  /** The operations of a storage on the table, when the database answers without an error. */
  ghost predicate PgStep(t: Table, op: Op, t': Table, a: Answer) {
    match op
    case SetGauge(id, v) =>
      t' == WithValue(t, id, v) && a == Gauge(v)
    case AddCounter(id, d) =>
      var k := Key(COUNTER, id);
      var sum := Sum(RowAt(t, k)) + d;
      InRange(sum) && t' == WithDelta(t, id, sum) && a == Counter(sum)
    case WriteBatch(ms) =>
      if Wellformed(ms) then a == Stored && exists out :: IsBatchWrite(t, ms, out, t')
      else t' == t && a == BadBatch
    case ReadGauge(id) =>
      var k := Key(GAUGE, id);
      t' == t && a == if k !in t || t[k].value.None? then Missing else Gauge(t[k].value.value)
    case ReadCounter(id) =>
      var k := Key(COUNTER, id);
      t' == t && a == if k !in t || t[k].delta.None? then Missing else Counter(t[k].delta.value)
    case ReadGauges => t' == t && a == AllGauges(GaugeRows(t))
    case ReadCounters => t' == t && a == AllCounters(CounterRows(t))
  }

  ghost predicate IsBatchWrite(t: Table, ms: seq<Sample>, out: seq<Sample>, t': Table) {
    IsFold(out, ms) && Wellformed(out) && UpsertAll(t, out) == Some(t')
  }

  lemma BatchSimulates(t: Table, ms: seq<Sample>, t': Table)
    requires Wellformed(ms) && exists out :: IsBatchWrite(t, ms, out, t')
    ensures Abs(t') == ApplyAll(Abs(t), ms)
  {
    var out :| IsBatchWrite(t, ms, out, t');
    UpsertAllSimulates(t, out);
    FoldPreservesMeaning(Abs(t), out, ms);
  }

  /** Every answer of the database is the answer of the in-memory storage, and leaves the same metrics behind. */
  lemma StepSimulates(t: Table, op: Op, t': Table, a: Answer)
    requires PgStep(t, op, t', a)
    ensures MemStep(Abs(t), op, Abs(t'), a)
  {
    match op
    case SetGauge(id, v) =>
      WithValueSeen(t, id, v);
    case AddCounter(id, d) =>
      AdditionSimulates(t, id, d, Sum(RowAt(t, Key(COUNTER, id))) + d);
    case WriteBatch(ms) =>
      if Wellformed(ms) {
        BatchSimulates(t, ms, t');
      }
    case ReadGauge(id) =>
    case ReadCounter(id) =>
    case ReadGauges =>
    case ReadCounters =>
  }

  /** No sum the operation writes leaves bigint. */
  ghost predicate Fits(t: Table, op: Op) {
    match op
    case AddCounter(id, d) => InRange(Sum(RowAt(t, Key(COUNTER, id))) + d)
    case WriteBatch(ms) =>
      Wellformed(ms) ==> forall k | k in Keys(ms) && k.mtype == COUNTER :: InRange(Sum(RowAt(t, k)) + DeltaSum(ms, k))
    case _ => true
  }

  /**
   * Conversely, the database can do what the in-memory storage does exactly
   * when no sum overflows. fold is the aggregated batch, needed for WriteBatch.
   */
  lemma StepPossibleExactlyWhenFits(t: Table, op: Op, fold: seq<Sample>)
    requires op.WriteBatch? && Wellformed(op.ms) ==> IsFold(fold, op.ms)
    ensures (exists t', a :: PgStep(t, op, t', a)) <==> Fits(t, op)
  {
    match op
    case AddCounter(id, d) =>
      var k := Key(COUNTER, id);
      if Fits(t, op) {
        var sum := Sum(RowAt(t, k)) + d;
        assert PgStep(t, op, WithDelta(t, id, sum), Counter(sum));
      }
    case WriteBatch(ms) =>
      if Wellformed(ms) {
        BatchFitsExactlyWhen(t, ms, fold);
        if Fits(t, op) {
          assert IsBatchWrite(t, ms, fold, UpsertAll(t, fold).value);
          assert PgStep(t, op, UpsertAll(t, fold).value, Stored);
        }
        if t', a :| PgStep(t, op, t', a) {
          var out :| IsBatchWrite(t, ms, out, t');
          FoldIsUnique(out, fold, ms);
        }
      } else {
        assert PgStep(t, op, t, BadBatch);
      }
    case SetGauge(id, v) =>
      assert PgStep(t, op, WithValue(t, id, v), Gauge(v));
    case ReadGauge(id) =>
      var k := Key(GAUGE, id);
      assert PgStep(t, op, t, if k !in t || t[k].value.None? then Missing else Gauge(t[k].value.value));
    case ReadCounter(id) =>
      var k := Key(COUNTER, id);
      assert PgStep(t, op, t, if k !in t || t[k].delta.None? then Missing else Counter(t[k].delta.value));
    case ReadGauges =>
      assert PgStep(t, op, t, AllGauges(GaugeRows(t)));
    case ReadCounters =>
      assert PgStep(t, op, t, AllCounters(CounterRows(t)));
  }

  lemma BatchFitsExactlyWhen(t: Table, ms: seq<Sample>, out: seq<Sample>)
    requires Wellformed(ms) && IsFold(out, ms)
    ensures Wellformed(out) && (UpsertAll(t, out).Some? <==> Fits(t, WriteBatch(ms)))
  {
    FoldIsWellformed(out, ms);
    UpsertAllSucceeds(t, out);
    if Fits(t, WriteBatch(ms)) {
      forall w | w in out && w.mtype == COUNTER
        ensures InRange(Sum(RowAt(t, KeyOf(w))) + w.delta.value)
      {
        assert KeyOf(w) in Keys(ms) && w == Folded(ms, KeyOf(w));
      }
    }
    if UpsertAll(t, out).Some? {
      forall k | k in Keys(ms) && k.mtype == COUNTER
        ensures InRange(Sum(RowAt(t, k)) + DeltaSum(ms, k))
      {
        var w :| w in out && KeyOf(w) == k;
        assert w == Folded(ms, k);
      }
    }
  }

  /** A session with the database: operation i takes tables[i] to tables[i + 1]. */
  ghost predicate PgSession(tables: seq<Table>, ops: seq<Op>, answers: seq<Answer>) {
    && |tables| == |ops| + 1 && |answers| == |ops|
    && forall i | 0 <= i < |ops| :: PgStep(tables[i], ops[i], tables[i + 1], answers[i])
  }

  ghost predicate MemSession(stores: seq<Store>, ops: seq<Op>, answers: seq<Answer>) {
    && |stores| == |ops| + 1 && |answers| == |ops|
    && forall i | 0 <= i < |ops| :: MemStep(stores[i], ops[i], stores[i + 1], answers[i])
  }

  /** Whole sessions: the map store started from the same metrics gives the same answers throughout. */
  lemma SessionSimulates(tables: seq<Table>, ops: seq<Op>, answers: seq<Answer>) returns (stores: seq<Store>)
    requires PgSession(tables, ops, answers)
    ensures MemSession(stores, ops, answers) && stores[0] == Abs(tables[0]) && stores[|ops|] == Abs(tables[|ops|])
  {
    stores := seq(|tables|, i requires 0 <= i < |tables| => Abs(tables[i]));
    forall i | 0 <= i < |ops|
      ensures MemStep(stores[i], ops[i], stores[i + 1], answers[i])
    {
      StepSimulates(tables[i], ops[i], tables[i + 1], answers[i]);
    }
  }
}
