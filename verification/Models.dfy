/** The metric representation shared by the agent, the server and the storages. */
module Models {
  import opened Wrappers
  import opened GoInt

  const GAUGE := "gauge"
  const COUNTER := "counter"

  /** A gauge value. Nothing computes on one, so it is only its bit pattern. */
  datatype Float64 = Float64(bits: nat)

  /** A Go pointer: one slot of an allocated block. */
  datatype Ref<T> = Ref(cells: array<T>, at: nat) {
    predicate Valid() {
      at < cells.Length
    }
  }

  /** models.Metrics as Go holds it: the payload is behind a pointer that may be nil. */
  datatype Metric = Metric(id: string, mtype: string, delta: Option<Ref<Int64>>, value: Option<Ref<Float64>>) {
    predicate Valid() {
      && (delta.Some? ==> delta.value.Valid())
      && (value.Some? ==> value.value.Valid())
    }

    function Cells(): set<object> {
      (if delta.Some? then {delta.value.cells} else {}) + (if value.Some? then {value.value.cells} else {})
    }

    /** The metric with its pointers followed. */
    function View(): Sample
      requires Valid()
      reads Cells()
    {
      Sample(id, mtype,
             if delta.Some? then Some(delta.value.cells[delta.value.at]) else None,
             if value.Some? then Some(value.value.cells[value.value.at]) else None)
    }
  }

  /** A metric on the wire or in a file: the payload itself instead of a pointer to it. */
  datatype Sample = Sample(id: string, mtype: string, delta: Option<Int64>, value: Option<Float64>)

  /** The identity of a metric: a gauge and a counter may share a name. */
  datatype Key = Key(mtype: string, id: string)

  function KeyOf(m: Sample): Key {
    Key(m.mtype, m.id)
  }

  function Keys(ms: seq<Sample>): set<Key> {
    set m | m in ms :: KeyOf(m)
  }

  function GaugeSample(id: string, v: Float64): Sample {
    Sample(id, GAUGE, None, Some(v))
  }

  function CounterSample(id: string, d: Int64): Sample {
    Sample(id, COUNTER, Some(d), None)
  }

  ghost function AllCells(ms: seq<Metric>): set<object> {
    set m, o | m in ms && o in m.Cells() :: o
  }

  ghost predicate AllValid(ms: seq<Metric>) {
    forall m | m in ms :: m.Valid()
  }

  /** The metrics of a slice with their pointers followed. */
  ghost function Views(ms: seq<Metric>): (vs: seq<Sample>)
    requires AllValid(ms)
    reads AllCells(ms)
    ensures |vs| == |ms| && forall i | 0 <= i < |ms| :: ms[i].Valid() && vs[i] == ms[i].View()
  {
    if ms == [] then [] else
      assert ms[|ms| - 1] in ms;
      Views(ms[..|ms| - 1]) + [ms[|ms| - 1].View()]
  }

  /** The metrics of a slice, followed one by one, are those in vs. */
  ghost predicate Shows(ms: seq<Metric>, vs: seq<Sample>)
    reads set m, o | m in ms && o in m.Cells() :: o
  {
    |vs| == |ms| && forall i | 0 <= i < |ms| :: ms[i].Valid() && ms[i].View() == vs[i]
  }

  /** Byte-wise order of strings, as cmp.Compare and strings.Compare define it. */
  predicate StringLess(a: string, b: string) {
    b != "" && (a == "" || a[0] < b[0] || (a[0] == b[0] && StringLess(a[1..], b[1..])))
  }

  lemma {:induction false} StringLessTransitive(a: string, b: string, c: string)
    requires StringLess(a, b) && StringLess(b, c)
    ensures StringLess(a, c)
  {
    if a != "" && a[0] == b[0] == c[0] {
      StringLessTransitive(a[1..], b[1..], c[1..]);
    }
  }

  lemma {:induction false} StringLessIrreflexive(a: string)
    ensures !StringLess(a, a)
  {
    if a != "" {
      StringLessIrreflexive(a[1..]);
    }
  }

  lemma {:induction false} StringLessTotal(a: string, b: string)
    ensures a == b || StringLess(a, b) || StringLess(b, a)
  {
    if a != "" && b != "" && a[0] == b[0] {
      StringLessTotal(a[1..], b[1..]);
      assert a == [a[0]] + a[1..] && b == [b[0]] + b[1..];
    }
  }

  /** The order the rows of a batch are written in. */
  predicate KeyLess(a: Key, b: Key) {
    StringLess(a.mtype, b.mtype) || (a.mtype == b.mtype && StringLess(a.id, b.id))
  }

  lemma KeyLessTransitive(a: Key, b: Key, c: Key)
    requires KeyLess(a, b) && KeyLess(b, c)
    ensures KeyLess(a, c)
  {
    if StringLess(a.mtype, b.mtype) && StringLess(b.mtype, c.mtype) {
      StringLessTransitive(a.mtype, b.mtype, c.mtype);
    } else if a.mtype == b.mtype == c.mtype {
      StringLessTransitive(a.id, b.id, c.id);
    }
  }

  lemma KeyLessIrreflexive(a: Key)
    ensures !KeyLess(a, a)
  {
    StringLessIrreflexive(a.mtype);
    StringLessIrreflexive(a.id);
  }

  lemma KeyLessTotal(a: Key, b: Key)
    ensures a == b || KeyLess(a, b) || KeyLess(b, a)
  {
    StringLessTotal(a.mtype, b.mtype);
    StringLessTotal(a.id, b.id);
  }

  /** a is a proper beginning of b, or has the smaller character where the two first differ. */
  ghost predicate ComesFirst(a: string, b: string) {
    exists i: nat :: ComesFirstAt(a, b, i)
  }

  ghost predicate ComesFirstAt(a: string, b: string, i: nat) {
    && i <= |a| && i < |b| && (forall j | 0 <= j < i :: a[j] == b[j])
    && (i == |a| || a[i] < b[i])
  }

  lemma {:induction false} StringLessExactlyWhen(a: string, b: string)
    ensures StringLess(a, b) <==> ComesFirst(a, b)
  {
    if a == "" || b == "" || a[0] != b[0] {
      assert StringLess(a, b) ==> ComesFirstAt(a, b, 0);
    } else {
      StringLessExactlyWhen(a[1..], b[1..]);
      if i: nat :| ComesFirstAt(a[1..], b[1..], i) {
        assert ComesFirstAt(a, b, i + 1);
      }
      if i: nat :| ComesFirstAt(a, b, i) {
        assert i > 0 && ComesFirstAt(a[1..], b[1..], i - 1);
      }
    }
  }

  /** Keys are ordered by their types, and those of one type by their names, character by character. */
  lemma KeyLessExactlyWhen(a: Key, b: Key)
    ensures KeyLess(a, b) <==> ComesFirst(a.mtype, b.mtype) || (a.mtype == b.mtype && ComesFirst(a.id, b.id))
  {
    StringLessExactlyWhen(a.mtype, b.mtype);
    StringLessExactlyWhen(a.id, b.id);
  }

  /** Every counter comes before every gauge. */
  lemma CountersComeFirst(a: string, b: string)
    ensures KeyLess(Key("counter", a), Key("gauge", b)) && !KeyLess(Key("gauge", b), Key("counter", a))
  {
  }

  /** Strictly increasing by key, hence free of duplicates. */
  ghost predicate Increasing(ms: seq<Sample>) {
    forall i, j | 0 <= i < j < |ms| :: KeyLess(KeyOf(ms[i]), KeyOf(ms[j]))
  }

  /** In such a list the counters come first, and metrics of one type are sorted by name. */
  lemma IncreasingIsSortedByTypeAndName(ms: seq<Sample>, i: nat, j: nat)
    requires Increasing(ms) && i < j < |ms|
    ensures ms[i].mtype == "gauge" ==> ms[j].mtype != "counter"
    ensures ms[i].mtype == ms[j].mtype ==> ComesFirst(ms[i].id, ms[j].id)
  {
    KeyLessExactlyWhen(KeyOf(ms[i]), KeyOf(ms[j]));
    CountersComeFirst(ms[j].id, ms[i].id);
    StringLessIrreflexive(ms[i].mtype);
    StringLessExactlyWhen(ms[i].mtype, ms[j].mtype);
  }

  lemma IncreasingIsDistinct(ms: seq<Sample>, i: nat, j: nat)
    requires Increasing(ms) && i < |ms| && j < |ms| && KeyOf(ms[i]) == KeyOf(ms[j])
    ensures i == j
  {
    KeyLessIrreflexive(KeyOf(ms[i]));
  }

  /** What a storage holds: gauges and counters live in separate namespaces. */
  datatype Store = Store(gauges: map<string, Float64>, counters: map<string, Int64>) {
    /** A missing counter counts from zero, as a Go map read does. */
    function Counter(id: string): Int64 {
      if id in counters then counters[id] else 0
    }
  }

  /** One metric written to a store: a gauge is replaced, a counter is added to. */
  function Apply(s: Store, m: Sample): Store {
    if m.mtype == GAUGE && m.value.Some? then
      s.(gauges := s.gauges[m.id := m.value.value])
    else if m.mtype == COUNTER && m.delta.Some? then
      s.(counters := s.counters[m.id := Add(s.Counter(m.id), m.delta.value)])
    else s
  }

  /** The metrics written one at a time, in the order given. */
  function ApplyAll(s: Store, ms: seq<Sample>): Store {
    if ms == [] then s else Apply(ApplyAll(s, ms[..|ms| - 1]), ms[|ms| - 1])
  }
}
