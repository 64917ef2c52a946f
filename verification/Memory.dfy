/** MemStorage: metrics kept in two maps, written to and restored from a snapshot. */
module Memory {
  import opened Wrappers
  import opened GoInt
  import opened Models
  import opened Batch

  datatype Op =
    | SetGauge(id: string, value: Float64)
    | AddCounter(id: string, delta: Int64)
    | WriteBatch(ms: seq<Sample>)
    | ReadGauge(id: string)
    | ReadCounter(id: string)
    | ReadGauges
    | ReadCounters

  datatype Answer =
    | Stored
    | BadBatch
    | Missing
    | Gauge(value: Float64)
    | Counter(total: Int64)
    | AllGauges(gauges: map<string, Float64>)
    | AllCounters(counters: map<string, Int64>)

  /** One operation of the storage, in terms of its metrics; a batch takes effect metric by metric. */
  ghost predicate MemStep(s: Store, op: Op, s': Store, a: Answer) {
    match op
    case SetGauge(id, v) => s' == Apply(s, GaugeSample(id, v)) && a == Gauge(v)
    case AddCounter(id, d) => s' == Apply(s, CounterSample(id, d)) && a == Counter(s'.Counter(id))
    case WriteBatch(ms) => if Wellformed(ms) then s' == ApplyAll(s, ms) && a == Stored else s' == s && a == BadBatch
    case ReadGauge(id) => s' == s && a == if id in s.gauges then Gauge(s.gauges[id]) else Missing
    case ReadCounter(id) => s' == s && a == if id in s.counters then Counter(s.counters[id]) else Missing
    case ReadGauges => s' == s && a == AllGauges(s.gauges)
    case ReadCounters => s' == s && a == AllCounters(s.counters)
  }

  /** ms lists every metric of s exactly once, in whatever order the maps were walked. */
  ghost predicate IsSnapshot(ms: seq<Sample>, s: Store) {
    && (forall i, j | 0 <= i < j < |ms| :: KeyOf(ms[i]) != KeyOf(ms[j]))
    && (forall m | m in ms :: IsEntry(m, s))
    && (forall id | id in s.gauges :: GaugeSample(id, s.gauges[id]) in ms)
    && (forall id | id in s.counters :: CounterSample(id, s.counters[id]) in ms)
  }

  /** m is the record of one of the metrics s holds. */
  ghost predicate IsEntry(m: Sample, s: Store) {
    || (m.id in s.gauges && m == GaugeSample(m.id, s.gauges[m.id]))
    || (m.id in s.counters && m == CounterSample(m.id, s.counters[m.id]))
  }

  /** One snapshot record put into a store: counters are set, not added to. */
  function Restore(s: Store, m: Sample): Store {
    if m.mtype == GAUGE && m.value.Some? then
      s.(gauges := s.gauges[m.id := m.value.value])
    else if m.mtype == COUNTER && m.delta.Some? then
      s.(counters := s.counters[m.id := m.delta.value])
    else s
  }

  function RestoreAll(s: Store, ms: seq<Sample>): Store {
    if ms == [] then s else Restore(RestoreAll(s, ms[..|ms| - 1]), ms[|ms| - 1])
  }

  /** A record Load cannot use. */
  predicate Unusable(m: Sample) {
    !(m.mtype == GAUGE && m.value.Some?) && !(m.mtype == COUNTER && m.delta.Some?)
  }

  function CountUnusable(ms: seq<Sample>): nat {
    if ms == [] then 0
    else CountUnusable(ms[..|ms| - 1]) + if Unusable(ms[|ms| - 1]) then 1 else 0
  }

  lemma GaugeListed(ms: seq<Sample>, s: Store, id: string, v: Float64)
    requires IsSnapshot(ms, s) && id !in s.gauges
    ensures IsSnapshot(ms + [GaugeSample(id, v)], s.(gauges := s.gauges[id := v]))
  {
    forall i | 0 <= i < |ms|
      ensures KeyOf(ms[i]) != Key(GAUGE, id)
    {
      assert ms[i] in ms;
    }
  }

  lemma CounterListed(ms: seq<Sample>, s: Store, id: string, d: Int64)
    requires IsSnapshot(ms, s) && id !in s.counters
    ensures IsSnapshot(ms + [CounterSample(id, d)], s.(counters := s.counters[id := d]))
  {
    forall i | 0 <= i < |ms|
      ensures KeyOf(ms[i]) != Key(COUNTER, id)
    {
      assert ms[i] in ms;
    }
  }

  class MemStorage {
    var gauges: map<string, Float64>
    var counters: map<string, Int64>

    ghost function State(): Store
      reads this
    {
      Store(gauges, counters)
    }

    constructor ()
      ensures State() == Store(map[], map[])
    {
      gauges, counters := map[], map[];
    }

    method UpdateGauge(name: string, value: Float64) returns (stored: Float64)
      modifies this
      ensures stored == value && gauges == old(gauges)[name := value] && counters == old(counters)
      ensures State() == Apply(old(State()), GaugeSample(name, value))
      ensures MemStep(old(State()), SetGauge(name, value), State(), Gauge(stored))
    {
      gauges := gauges[name := value];
      stored := value;
    }

    method UpdateCounter(name: string, value: Int64) returns (total: Int64)
      modifies this
      ensures State() == Apply(old(State()), CounterSample(name, value))
      ensures counters == old(counters)[name := total] && gauges == old(gauges)
      ensures total == State().Counter(name) == Add(old(State()).Counter(name), value)
      ensures MemStep(old(State()), AddCounter(name, value), State(), Counter(total))
    {
      counters := counters[name := Add(if name in counters then counters[name] else 0, value)];
      total := counters[name];
    }

    /**
     * All of the batch or none of it. An accepted batch means what its raw
     * metrics mean one by one, in the order they came.
     */
    method UpdateBatch(metrics: seq<Metric>) returns (err: Option<Invalid>)
      requires AllValid(metrics) && this !in AllCells(metrics)
      modifies this
      ensures err.None? <==> Wellformed(old(Views(metrics)))
      ensures err.Some? ==> State() == old(State()) && FirstProblem(old(Views(metrics)), err.value)
      ensures err.None? ==> State() == ApplyAll(old(State()), old(Views(metrics)))
      ensures MemStep(old(State()), WriteBatch(old(Views(metrics))), State(), if err.None? then Stored else BadBatch)
    {
      if |metrics| == 0 {
        return None;
      }
      var batch := AggregateBatch(metrics);
      if batch.Err? {
        return Some(batch.error);
      }
      ghost var fold := Views(batch.value);
      FoldIsWellformed(fold, old(Views(metrics)));
      WriteAll(batch.value);
      FoldPreservesMeaning(old(State()), fold, old(Views(metrics)));
      err := None;
    }

    /** The writes of an aggregated batch, in its order. */
    method WriteAll(batch: seq<Metric>)
      requires AllValid(batch) && this !in AllCells(batch)
      requires Wellformed(Views(batch))
      modifies this
      ensures State() == ApplyAll(old(State()), old(Views(batch)))
    {
      ghost var vs := Views(batch);
      for i := 0 to |batch|
        invariant State() == ApplyAll(old(State()), vs[..i])
        invariant forall j | 0 <= j < |batch| :: batch[j].Valid() && vs[j] == batch[j].View()
      {
        assert vs[i] in vs;
        var m := batch[i].View();
        assert vs[..i + 1] == vs[..i] + [m];
        ApplyAllSnoc(old(State()), vs[..i], m);
        if m.mtype == GAUGE {
          gauges := gauges[m.id := m.value.value];
        } else if m.mtype == COUNTER {
          counters := counters[m.id := Add(if m.id in counters then counters[m.id] else 0, m.delta.value)];
        }
      }
      assert vs[..|batch|] == vs;
    }

    /** None stands for models.ErrNotFound. */
    method GetGauge(name: string) returns (value: Option<Float64>)
      ensures value.Some? <==> name in State().gauges
      ensures value.Some? ==> value.value == State().gauges[name]
      ensures MemStep(State(), ReadGauge(name), State(), if value.Some? then Gauge(value.value) else Missing)
    {
      value := if name in gauges then Some(gauges[name]) else None;
    }

    method GetCounter(name: string) returns (total: Option<Int64>)
      ensures total.Some? <==> name in State().counters
      ensures total.Some? ==> total.value == State().counters[name]
      ensures MemStep(State(), ReadCounter(name), State(), if total.Some? then Counter(total.value) else Missing)
    {
      total := if name in counters then Some(counters[name]) else None;
    }

    method GetAllGauges() returns (all: map<string, Float64>)
      ensures all == State().gauges && MemStep(State(), ReadGauges, State(), AllGauges(all))
    {
      all := gauges;
    }

    method GetAllCounters() returns (all: map<string, Int64>)
      ensures all == State().counters && MemStep(State(), ReadCounters, State(), AllCounters(all))
    {
      all := counters;
    }

    /** The current state as a flat list, in the order the maps happen to be walked. */
    method Snapshot() returns (ms: seq<Sample>)
      ensures IsSnapshot(ms, State())
    {
      ms := [];
      var names := gauges.Keys;
      ghost var done: map<string, Float64> := map[];
      while names != {}
        invariant names <= gauges.Keys && done.Keys == gauges.Keys - names
        invariant forall id | id in done :: done[id] == gauges[id]
        invariant IsSnapshot(ms, Store(done, map[]))
      {
        var name :| name in names;
        GaugeListed(ms, Store(done, map[]), name, gauges[name]);
        ms, names, done := ms + [GaugeSample(name, gauges[name])], names - {name}, done[name := gauges[name]];
      }
      assert done == gauges;
      names := counters.Keys;
      ghost var summed: map<string, Int64> := map[];
      while names != {}
        invariant names <= counters.Keys && summed.Keys == counters.Keys - names
        invariant forall id | id in summed :: summed[id] == counters[id]
        invariant IsSnapshot(ms, Store(gauges, summed))
      {
        var name :| name in names;
        CounterListed(ms, Store(gauges, summed), name, counters[name]);
        ms, names, summed := ms + [CounterSample(name, counters[name])], names - {name}, summed[name := counters[name]];
      }
      assert summed == counters;
    }

    /** The decoded snapshot put into the storage; the number of records it skipped is reported. */
    method Load(ms: seq<Sample>) returns (skipped: nat)
      modifies this
      ensures State() == RestoreAll(old(State()), ms)
      ensures skipped == CountUnusable(ms)
    {
      skipped := 0;
      for i := 0 to |ms|
        invariant State() == RestoreAll(old(State()), ms[..i])
        invariant skipped == CountUnusable(ms[..i])
      {
        var m := ms[i];
        RestoreAllSnoc(old(State()), ms[..i], m);
        assert ms[..i + 1] == ms[..i] + [m];
        if m.mtype == GAUGE && m.value.Some? {
          gauges := gauges[m.id := m.value.value];
        } else if m.mtype == COUNTER && m.delta.Some? {
          counters := counters[m.id := m.delta.value];
        } else {
          skipped := skipped + 1;
        }
      }
      assert ms[..|ms|] == ms;
    }
  }

  /** Record i is one of the metric k that Load can use: a gauge with a value or a counter with a delta. */
  predicate IsRecordOf(ms: seq<Sample>, k: Key, i: nat) {
    && i < |ms| && KeyOf(ms[i]) == k
    && ((k.mtype == GAUGE && ms[i].value.Some?) || (k.mtype == COUNTER && ms[i].delta.Some?))
  }

  /** What the store holds under a key. */
  function Entry(s: Store, k: Key): Option<Sample> {
    if k.mtype == GAUGE && k.id in s.gauges then Some(GaugeSample(k.id, s.gauges[k.id]))
    else if k.mtype == COUNTER && k.id in s.counters then Some(CounterSample(k.id, s.counters[k.id]))
    else None
  }

  ghost predicate IsLastRecord(ms: seq<Sample>, k: Key, i: nat) {
    IsRecordOf(ms, k, i) && forall j: nat | i < j :: !IsRecordOf(ms, k, j)
  }

  ghost predicate HasNoRecord(ms: seq<Sample>, k: Key) {
    forall i: nat :: !IsRecordOf(ms, k, i)
  }

  /** One record touches its own metric, and only if it can be used. */
  lemma RestoreElsewhere(s: Store, ms: seq<Sample>, k: Key)
    requires ms != [] && !IsRecordOf(ms, k, |ms| - 1)
    ensures Entry(Restore(s, ms[|ms| - 1]), k) == Entry(s, k)
  {
  }

  lemma RecordsOfFront(ms: seq<Sample>, k: Key, i: nat)
    requires i < |ms| - 1
    ensures IsRecordOf(ms[..|ms| - 1], k, i) <==> IsRecordOf(ms, k, i)
  {
  }

  /** Load sets a metric to what the last record of it says that it can use ... */
  lemma {:induction false} LastRecordIsRestored(s: Store, ms: seq<Sample>, k: Key, i: nat)
    requires IsLastRecord(ms, k, i)
    ensures Entry(RestoreAll(s, ms), k)
         == Some(if k.mtype == GAUGE then GaugeSample(k.id, ms[i].value.value)
                 else CounterSample(k.id, ms[i].delta.value))
  {
    var n := |ms| - 1;
    if i < n {
      forall j | 0 <= j < n
        ensures IsRecordOf(ms[..n], k, j) <==> IsRecordOf(ms, k, j)
      {
        RecordsOfFront(ms, k, j);
      }
      assert !IsRecordOf(ms, k, n);
      LastRecordIsRestored(s, ms[..n], k, i);
      RestoreElsewhere(RestoreAll(s, ms[..n]), ms, k);
    }
  }

  /** ... and leaves the others alone. */
  lemma {:induction false} UnrecordedStays(s: Store, ms: seq<Sample>, k: Key)
    requires HasNoRecord(ms, k)
    ensures Entry(RestoreAll(s, ms), k) == Entry(s, k)
  {
    if ms != [] {
      var n := |ms| - 1;
      forall j | 0 <= j < n
        ensures !IsRecordOf(ms[..n], k, j)
      {
        RecordsOfFront(ms, k, j);
      }
      UnrecordedStays(s, ms[..n], k);
      RestoreElsewhere(RestoreAll(s, ms[..n]), ms, k);
    }
  }

  /** The positions of the records Load reports as skipped. */
  ghost function Skipped(ms: seq<Sample>): set<nat> {
    set i: nat | i < |ms| && !IsRecordOf(ms, KeyOf(ms[i]), i)
  }

  lemma {:induction false} SkippedAreCounted(ms: seq<Sample>)
    ensures CountUnusable(ms) == |Skipped(ms)|
  {
    if ms != [] {
      var n := |ms| - 1;
      SkippedAreCounted(ms[..n]);
      assert Skipped(ms) == Skipped(ms[..n]) + if n in Skipped(ms) then {n} else {};
    }
  }

  lemma RestoreAllSnoc(s: Store, ms: seq<Sample>, m: Sample)
    ensures RestoreAll(s, ms + [m]) == Restore(RestoreAll(s, ms), m)
    ensures CountUnusable(ms + [m]) == CountUnusable(ms) + if Unusable(m) then 1 else 0
  {
    assert (ms + [m])[..|ms + [m]| - 1] == ms;
  }

  /** s with everything t holds laid over it. */
  function Overlay(s: Store, t: Store): Store {
    Store(s.gauges + t.gauges, s.counters + t.counters)
  }

  lemma RestoreOnTop(s: Store, t: Store, m: Sample)
    ensures Restore(Overlay(s, t), m) == Overlay(s, Restore(t, m))
  {
    if m.mtype == GAUGE && m.value.Some? {
      assert (s.gauges + t.gauges)[m.id := m.value.value] == s.gauges + t.gauges[m.id := m.value.value];
    } else if m.mtype == COUNTER && m.delta.Some? {
      assert (s.counters + t.counters)[m.id := m.delta.value] == s.counters + t.counters[m.id := m.delta.value];
    }
  }

  /** Overlaying is all that restoring does, whatever the list. */
  lemma {:induction false} RestoreIsOverlay(s: Store, ms: seq<Sample>)
    ensures RestoreAll(s, ms) == Overlay(s, RestoreAll(Store(map[], map[]), ms))
  {
    if ms != [] {
      RestoreIsOverlay(s, ms[..|ms| - 1]);
      RestoreOnTop(s, RestoreAll(Store(map[], map[]), ms[..|ms| - 1]), ms[|ms| - 1]);
    } else {
      assert Overlay(s, Store(map[], map[])) == s;
    }
  }

  /** Loading any list a second time changes nothing. */
  lemma LoadTwiceIsLoadOnce(s: Store, ms: seq<Sample>)
    ensures RestoreAll(RestoreAll(s, ms), ms) == RestoreAll(s, ms)
  {
    RestoreIsOverlay(s, ms);
    RestoreIsOverlay(RestoreAll(s, ms), ms);
  }

  /**
   * A snapshot of t, walked in any order, loads into any store as t laid over
   * that store, with no record skipped; into an empty one it loads as t itself.
   */
  lemma LoadRestoresSnapshot(s: Store, ms: seq<Sample>, t: Store)
    requires IsSnapshot(ms, t)
    ensures RestoreAll(s, ms) == Overlay(s, t) && CountUnusable(ms) == 0
    ensures RestoreAll(Store(map[], map[]), ms) == t
  {
    var e := Store(map[], map[]);
    RestoreIsOverlay(s, ms);
    SnapshotRecords(ms, t);
    var r := RestoreAll(e, ms);
    forall id | id in t.gauges
      ensures id in r.gauges
    {
      var i :| 0 <= i < |ms| && ms[i] == GaugeSample(id, t.gauges[id]);
      RecordSurvives(ms, t, i);
    }
    forall id | id in t.counters
      ensures id in r.counters
    {
      var i :| 0 <= i < |ms| && ms[i] == CounterSample(id, t.counters[id]);
      RecordSurvives(ms, t, i);
    }
    assert r.gauges == t.gauges && r.counters == t.counters;
  }

  /** Nothing but the entries of t is restored from records of t. */
  lemma {:induction false} SnapshotRecords(ms: seq<Sample>, t: Store)
    requires forall m | m in ms :: IsEntry(m, t)
    ensures CountUnusable(ms) == 0
    ensures var r := RestoreAll(Store(map[], map[]), ms);
            && (forall id | id in r.gauges :: id in t.gauges && r.gauges[id] == t.gauges[id])
            && (forall id | id in r.counters :: id in t.counters && r.counters[id] == t.counters[id])
  {
    if ms != [] {
      assert ms[|ms| - 1] in ms;
      SnapshotRecords(ms[..|ms| - 1], t);
    }
  }

  lemma {:induction false} RecordSurvives(ms: seq<Sample>, t: Store, i: nat)
    requires i < |ms| && forall m | m in ms :: IsEntry(m, t)
    ensures ms[i].mtype == GAUGE ==> ms[i].id in RestoreAll(Store(map[], map[]), ms).gauges
    ensures ms[i].mtype == COUNTER ==> ms[i].id in RestoreAll(Store(map[], map[]), ms).counters
  {
    assert ms[|ms| - 1] in ms;
    if i < |ms| - 1 {
      RecordSurvives(ms[..|ms| - 1], t, i);
    }
  }
}
