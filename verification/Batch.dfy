/** aggregateBatch: a raw batch folded into one sorted write per metric. */
module Batch {
  import opened Wrappers
  import opened GoInt
  import opened Models

  /** The ways a metric can be malformed; all of them wrap models.ErrInvalidMetric. */
  datatype Invalid =
    | IdMissing | ValueMissing(id: string) | DeltaMissing(id: string)
    | UnknownType(mtype: string, id: string)

  function Problem(m: Sample): Option<Invalid> {
    if m.id == "" then Some(IdMissing)
    else if m.mtype == GAUGE then (if m.value.None? then Some(ValueMissing(m.id)) else None)
    else if m.mtype == COUNTER then (if m.delta.None? then Some(DeltaMissing(m.id)) else None)
    else Some(UnknownType(m.mtype, m.id))
  }

  /** A metric is valid exactly with a name, a known type and the payload of that type. */
  lemma ValidExactlyWhen(m: Sample)
    ensures Problem(m).None? <==>
              m.id != "" && ((m.mtype == "gauge" && m.value.Some?) || (m.mtype == "counter" && m.delta.Some?))
    ensures Problem(m) == Some(IdMissing) <==> m.id == ""
    ensures Problem(m) == Some(ValueMissing(m.id)) <==> m.id != "" && m.mtype == "gauge" && m.value.None?
    ensures Problem(m) == Some(DeltaMissing(m.id)) <==> m.id != "" && m.mtype == "counter" && m.delta.None?
    ensures Problem(m) == Some(UnknownType(m.mtype, m.id)) <==> m.id != "" && m.mtype !in {"gauge", "counter"}
  {
  }

  ghost predicate Wellformed(ms: seq<Sample>) {
    forall m | m in ms :: Problem(m).None?
  }

  // ---------------------------------------------------------------- meaning of a fold

  /** The value of the last gauge of that key. */
  ghost function LastValue(ms: seq<Sample>, k: Key): Option<Float64> {
    if ms == [] then None
    else
      var m := ms[|ms| - 1];
      if KeyOf(m) == k then m.value else LastValue(ms[..|ms| - 1], k)
  }

  /** The wrapped sum of all deltas of that key. */
  ghost function DeltaSum(ms: seq<Sample>, k: Key): Int64 {
    if ms == [] then 0
    else
      var m := ms[|ms| - 1];
      var rest := DeltaSum(ms[..|ms| - 1], k);
      if KeyOf(m) == k && m.delta.Some? then Add(rest, m.delta.value) else rest
  }

  /** The value that counts is that of the last metric of the key. */
  lemma {:induction false} LastValueIsOfLast(ms: seq<Sample>, k: Key, i: nat)
    requires i < |ms| && KeyOf(ms[i]) == k && forall j | i < j < |ms| :: KeyOf(ms[j]) != k
    ensures LastValue(ms, k) == ms[i].value
  {
    if i < |ms| - 1 {
      LastValueIsOfLast(ms[..|ms| - 1], k, i);
    }
  }

  /** The deltas of that key added up without wrapping. */
  ghost function PlainSum(ms: seq<Sample>, k: Key): int {
    if ms == [] then 0
    else
      var m := ms[|ms| - 1];
      PlainSum(ms[..|ms| - 1], k) + if KeyOf(m) == k && m.delta.Some? then m.delta.value else 0
  }

  /** Wrapping at every addition is wrapping once at the end. */
  lemma {:induction false} DeltaSumIsWrapped(ms: seq<Sample>, k: Key)
    ensures DeltaSum(ms, k) == Wrap(PlainSum(ms, k))
  {
    if ms != [] {
      var front, m := ms[..|ms| - 1], ms[|ms| - 1];
      DeltaSumIsWrapped(front, k);
      if KeyOf(m) == k && m.delta.Some? {
        WrapAdds(PlainSum(front, k), m.delta.value);
      }
    }
  }

  /** The single write that stands for all the metrics of one key. */
  ghost function Folded(ms: seq<Sample>, k: Key): Sample {
    if k.mtype == GAUGE then Sample(k.id, k.mtype, None, LastValue(ms, k))
    else Sample(k.id, k.mtype, Some(DeltaSum(ms, k)), None)
  }

  /** What a fold of ms has to be, whatever computed it. */
  ghost predicate IsFold(out: seq<Sample>, ms: seq<Sample>) {
    && Increasing(out)
    && Keys(out) == Keys(ms)
    && forall m | m in out :: m == Folded(ms, KeyOf(m))
  }

  lemma KeysSnoc(ms: seq<Sample>, m: Sample)
    ensures Keys(ms + [m]) == Keys(ms) + {KeyOf(m)}
  {
    assert forall x :: x in ms + [m] <==> x in ms || x == m;
  }

  lemma FoldedSnoc(ms: seq<Sample>, m: Sample, k: Key)
    ensures KeyOf(m) != k ==> Folded(ms + [m], k) == Folded(ms, k)
    ensures LastValue(ms + [m], k) == if KeyOf(m) == k then m.value else LastValue(ms, k)
    ensures DeltaSum(ms + [m], k)
         == if KeyOf(m) == k && m.delta.Some? then Add(DeltaSum(ms, k), m.delta.value) else DeltaSum(ms, k)
  {
    assert (ms + [m])[..|ms + [m]| - 1] == ms;
  }

  /** Metrics of other keys do not contribute. */
  lemma {:induction false} FoldedUnseen(ms: seq<Sample>, k: Key)
    requires k !in Keys(ms)
    ensures LastValue(ms, k) == None && DeltaSum(ms, k) == 0
  {
    if ms != [] {
      var front, m := ms[..|ms| - 1], ms[|ms| - 1];
      assert ms == front + [m];
      KeysSnoc(front, m);
      FoldedUnseen(front, k);
    }
  }

  lemma {:induction false} ApplyAllSnoc(s: Store, ms: seq<Sample>, m: Sample)
    ensures ApplyAll(s, ms + [m]) == Apply(ApplyAll(s, ms), m)
  {
    assert (ms + [m])[..|ms + [m]| - 1] == ms;
  }

  lemma {:induction false} GaugesPerKey(s: Store, ms: seq<Sample>, id: string)
    requires Wellformed(ms)
    ensures id in ApplyAll(s, ms).gauges <==> id in s.gauges || Key(GAUGE, id) in Keys(ms)
    ensures Key(GAUGE, id) in Keys(ms) ==> LastValue(ms, Key(GAUGE, id)) == Some(ApplyAll(s, ms).gauges[id])
    ensures Key(GAUGE, id) !in Keys(ms) && id in s.gauges ==> ApplyAll(s, ms).gauges[id] == s.gauges[id]
  {
    if ms != [] {
      var front, m := ms[..|ms| - 1], ms[|ms| - 1];
      assert ms == front + [m];
      assert m in ms && forall x | x in front :: x in ms;
      KeysSnoc(front, m);
      FoldedSnoc(front, m, Key(GAUGE, id));
      GaugesPerKey(s, front, id);
      assert ApplyAll(s, ms) == Apply(ApplyAll(s, front), m);
      assert KeyOf(m) == Key(GAUGE, id) <==> m.mtype == GAUGE && m.id == id;
    }
  }

  lemma {:induction false} CountersPerKey(s: Store, ms: seq<Sample>, id: string)
    requires Wellformed(ms)
    ensures id in ApplyAll(s, ms).counters <==> id in s.counters || Key(COUNTER, id) in Keys(ms)
    ensures ApplyAll(s, ms).Counter(id) == Add(s.Counter(id), DeltaSum(ms, Key(COUNTER, id)))
  {
    if ms != [] {
      var front, m := ms[..|ms| - 1], ms[|ms| - 1];
      assert ms == front + [m];
      assert m in ms && forall x | x in front :: x in ms;
      KeysSnoc(front, m);
      FoldedSnoc(front, m, Key(COUNTER, id));
      CountersPerKey(s, front, id);
      if KeyOf(m) == Key(COUNTER, id) {
        AddAssociates(s.Counter(id), DeltaSum(front, Key(COUNTER, id)), m.delta.value);
      }
    }
  }

  /** Each name of the resulting store depends on the metrics of its own key alone. */
  lemma ApplyAllPerKey(s: Store, ms: seq<Sample>, id: string)
    requires Wellformed(ms)
    ensures id in ApplyAll(s, ms).gauges <==> id in s.gauges || Key(GAUGE, id) in Keys(ms)
    ensures id in ApplyAll(s, ms).counters <==> id in s.counters || Key(COUNTER, id) in Keys(ms)
    ensures Key(GAUGE, id) in Keys(ms) ==> LastValue(ms, Key(GAUGE, id)) == Some(ApplyAll(s, ms).gauges[id])
    ensures Key(GAUGE, id) !in Keys(ms) && id in s.gauges ==> ApplyAll(s, ms).gauges[id] == s.gauges[id]
    ensures ApplyAll(s, ms).Counter(id) == Add(s.Counter(id), DeltaSum(ms, Key(COUNTER, id)))
  {
    GaugesPerKey(s, ms, id);
    CountersPerKey(s, ms, id);
  }

  /** A key occurring once folds to its only metric. */
  lemma {:induction false} FoldedSingle(ms: seq<Sample>, i: nat)
    requires i < |ms| && Problem(ms[i]).None?
    requires forall j | 0 <= j < |ms| && j != i :: KeyOf(ms[j]) != KeyOf(ms[i])
    ensures ms[i].mtype == GAUGE ==> LastValue(ms, KeyOf(ms[i])) == ms[i].value
    ensures ms[i].mtype == COUNTER ==> DeltaSum(ms, KeyOf(ms[i])) == ms[i].delta.value
  {
    var front, m := ms[..|ms| - 1], ms[|ms| - 1];
    assert ms == front + [m];
    FoldedSnoc(front, m, KeyOf(ms[i]));
    if i == |front| {
      FoldedUnseen(front, KeyOf(m));
    } else {
      assert front[i] == ms[i];
      FoldedSingle(front, i);
    }
  }

  /** The keys of a well-formed batch are gauges or counters, and its gauges have a value. */
  lemma {:induction false} KeysAreTyped(ms: seq<Sample>, k: Key)
    requires Wellformed(ms) && k in Keys(ms)
    ensures k.id != "" && (k.mtype == GAUGE || k.mtype == COUNTER)
    ensures k.mtype == GAUGE ==> LastValue(ms, k).Some?
  {
    var front, m := ms[..|ms| - 1], ms[|ms| - 1];
    assert ms == front + [m];
    assert m in ms && forall x | x in front :: x in ms;
    KeysSnoc(front, m);
    if KeyOf(m) != k {
      KeysAreTyped(front, k);
    }
  }

  lemma FoldIsWellformed(out: seq<Sample>, ms: seq<Sample>)
    requires IsFold(out, ms) && Wellformed(ms)
    ensures Wellformed(out)
  {
    forall m | m in out
      ensures Problem(m).None?
    {
      assert KeyOf(m) in Keys(out);
      KeysAreTyped(ms, KeyOf(m));
    }
  }

  /**
   * Writing the fold in its sorted order means the same as writing the raw
   * metrics one by one in the order they came, wrap-around included.
   */
  lemma FoldPreservesMeaning(s: Store, out: seq<Sample>, ms: seq<Sample>)
    requires IsFold(out, ms) && Wellformed(ms)
    ensures ApplyAll(s, out) == ApplyAll(s, ms)
  {
    FoldIsWellformed(out, ms);
    var a, b := ApplyAll(s, out), ApplyAll(s, ms);
    forall id: string
      ensures id in a.gauges <==> id in b.gauges
      ensures id in a.gauges ==> a.gauges[id] == b.gauges[id]
      ensures id in a.counters <==> id in b.counters
      ensures id in a.counters ==> a.counters[id] == b.counters[id]
    {
      FoldPreservesName(s, out, ms, id);
    }
    assert a.gauges == b.gauges && a.counters == b.counters;
  }

  lemma FoldPreservesName(s: Store, out: seq<Sample>, ms: seq<Sample>, id: string)
    requires IsFold(out, ms) && Wellformed(ms) && Wellformed(out)
    ensures id in ApplyAll(s, out).gauges <==> id in ApplyAll(s, ms).gauges
    ensures id in ApplyAll(s, out).gauges ==> ApplyAll(s, out).gauges[id] == ApplyAll(s, ms).gauges[id]
    ensures id in ApplyAll(s, out).counters <==> id in ApplyAll(s, ms).counters
    ensures ApplyAll(s, out).Counter(id) == ApplyAll(s, ms).Counter(id)
  {
    ApplyAllPerKey(s, out, id);
    ApplyAllPerKey(s, ms, id);
    FoldedAgrees(out, ms, Key(GAUGE, id));
    FoldedAgrees(out, ms, Key(COUNTER, id));
  }

  lemma FoldedAgrees(out: seq<Sample>, ms: seq<Sample>, k: Key)
    requires IsFold(out, ms) && Wellformed(ms) && Wellformed(out)
    ensures k.mtype == GAUGE ==> LastValue(out, k) == LastValue(ms, k)
    ensures k.mtype == COUNTER ==> DeltaSum(out, k) == DeltaSum(ms, k)
  {
    if k in Keys(ms) {
      var m :| m in out && KeyOf(m) == k;
      var i :| 0 <= i < |out| && out[i] == m;
      forall j | 0 <= j < |out| && j != i
        ensures KeyOf(out[j]) != k
      {
        if KeyOf(out[j]) == k {
          IncreasingIsDistinct(out, i, j);
        }
      }
      FoldedSingle(out, i);
    } else {
      FoldedUnseen(out, k);
      FoldedUnseen(ms, k);
    }
  }

  /** There is only one fold: the list depends on the metrics, not on who computed it. */
  lemma FoldIsUnique(a: seq<Sample>, b: seq<Sample>, ms: seq<Sample>)
    requires IsFold(a, ms) && IsFold(b, ms)
    ensures a == b
  {
    SameKeysSameOrder(a, b);
    forall i | 0 <= i < |a|
      ensures a[i] == b[i]
    {
      assert a[i] in a && b[i] in b;
    }
  }

  /** Two increasing lists over the same keys have the same keys in the same places. */
  lemma {:induction false} SameKeysSameOrder(a: seq<Sample>, b: seq<Sample>)
    requires Increasing(a) && Increasing(b) && Keys(a) == Keys(b)
    ensures |a| == |b| && forall i | 0 <= i < |a| :: KeyOf(a[i]) == KeyOf(b[i])
    decreases |a|
  {
    assert b != [] ==> KeyOf(b[0]) in Keys(b);
    if a != [] {
      LastIsGreatest(a, b);
      var a', b' := a[..|a| - 1], b[..|b| - 1];
      KeysWithoutLast(a);
      KeysWithoutLast(b);
      SameKeysSameOrder(a', b');
      forall i | 0 <= i < |a|
        ensures KeyOf(a[i]) == KeyOf(b[i])
      {
        assert i < |a'| ==> a[i] == a'[i] && b[i] == b'[i];
      }
    }
  }

  lemma LastIsGreatest(a: seq<Sample>, b: seq<Sample>)
    requires Increasing(a) && Increasing(b) && Keys(a) == Keys(b) && a != []
    ensures b != [] && KeyOf(a[|a| - 1]) == KeyOf(b[|b| - 1])
  {
    var x := a[|a| - 1];
    assert KeyOf(x) in Keys(b);
    var y := b[|b| - 1];
    assert KeyOf(y) in Keys(a);
    var m :| m in b && KeyOf(m) == KeyOf(x);
    var n :| n in a && KeyOf(n) == KeyOf(y);
    var i :| 0 <= i < |b| && b[i] == m;
    var j :| 0 <= j < |a| && a[j] == n;
    if i < |b| - 1 && j < |a| - 1 {
      KeyLessTransitive(KeyOf(x), KeyOf(y), KeyOf(x));
      KeyLessIrreflexive(KeyOf(x));
    }
  }

  lemma KeysWithoutLast(a: seq<Sample>)
    requires Increasing(a) && a != []
    ensures Increasing(a[..|a| - 1]) && Keys(a[..|a| - 1]) == Keys(a) - {KeyOf(a[|a| - 1])}
  {
    var front, last := a[..|a| - 1], a[|a| - 1];
    assert a == front + [last];
    KeysSnoc(front, last);
    forall i | 0 <= i < |front|
      ensures KeyOf(front[i]) != KeyOf(last)
    {
      KeyLessIrreflexive(KeyOf(last));
      assert KeyLess(KeyOf(a[i]), KeyOf(last));
    }
  }

  // ---------------------------------------------------------------- the loop and its slots

  function MetricKey(m: Metric): Key {
    Key(m.mtype, m.id)
  }

  /** m points into the first slots handed out so far, and nowhere else. */
  ghost predicate InSlots(m: Metric, values: array<Float64>, used: nat, deltas: array<Int64>, spent: nat) {
    && m.Valid()
    && (m.mtype == GAUGE ==> m.delta.None? && m.value.Some? && m.value.value.cells == values && m.value.value.at < used)
    && (m.mtype != GAUGE ==>
          m.value.None? && m.delta.Some? && m.delta.value.cells == deltas && m.delta.value.at < spent)
  }

  /** Two metrics writing through the same pointer. */
  ghost predicate ShareSlot(m: Metric, n: Metric) {
    (m.value.Some? && m.value == n.value) || (m.delta.Some? && m.delta == n.delta)
  }

  /** The entries, the slots they own and the positions they are found at. */
  ghost predicate Slotted(out: seq<Metric>, index: map<Key, nat>, values: array<Float64>, used: nat,
                          deltas: array<Int64>, spent: nat) {
    && used <= values.Length && spent <= deltas.Length && used + spent == |out|
    && (forall j | 0 <= j < |out| :: InSlots(out[j], values, used, deltas, spent))
    && (forall i, j | 0 <= i < j < |out| :: !ShareSlot(out[i], out[j]))
    && (forall j | 0 <= j < |out| :: MetricKey(out[j]) in index && index[MetricKey(out[j])] == j)
    && (forall k | k in index :: index[k] < |out| && MetricKey(out[index[k]]) == k)
  }

  /** What the loop has built once it has read the metrics in seen. */
  ghost predicate Folding(seen: seq<Sample>, out: seq<Metric>, index: map<Key, nat>,
                          values: array<Float64>, used: nat, deltas: array<Int64>, spent: nat)
    reads values, deltas
  {
    && Slotted(out, index, values, used, deltas, spent)
    && |out| <= |seen| && index.Keys == Keys(seen)
    && (forall j | 0 <= j < |out| :: out[j].View() == Folded(seen, MetricKey(out[j])))
  }

  /** A metric already seen is merged in the slot of its own entry. */
  method Merge(ghost seen: seq<Sample>, m: Sample, out: seq<Metric>, index: map<Key, nat>,
               values: array<Float64>, ghost used: nat, deltas: array<Int64>, ghost spent: nat)
    requires Folding(seen, out, index, values, used, deltas, spent)
    requires Problem(m).None? && KeyOf(m) in index
    modifies values, deltas
    ensures Folding(seen + [m], out, index, values, used, deltas, spent)
  {
    var pos := index[KeyOf(m)];
    if m.mtype == GAUGE {
      out[pos].value.value.cells[out[pos].value.value.at] := m.value.value;
    } else {
      var slot := out[pos].delta.value;
      slot.cells[slot.at] := Add(slot.cells[slot.at], m.delta.value);
    }
    KeysSnoc(seen, m);
    forall j | 0 <= j < |out|
      ensures out[j].View() == Folded(seen + [m], MetricKey(out[j]))
    {
      FoldedSnoc(seen, m, MetricKey(out[j]));
      if j != pos {
        assert !ShareSlot(out[j], out[pos]) && !ShareSlot(out[pos], out[j]);
      }
    }
  }

  /** The field its type calls for is set. */
  predicate HasPayload(m: Sample) {
    (m.mtype == GAUGE && m.value.Some?) || (m.mtype == COUNTER && m.delta.Some?)
  }

  /** The next free slot takes the payload of m; the slots in use keep theirs. */
  method NewSlot(m: Sample, values: array<Float64>, used: nat, deltas: array<Int64>, spent: nat)
    returns (merged: Metric, used': nat, spent': nat)
    requires HasPayload(m)
    requires used <= values.Length && spent <= deltas.Length
    requires if m.mtype == GAUGE then used < values.Length else spent < deltas.Length
    modifies values, deltas
    ensures used <= used' && spent <= spent' && used' + spent' == used + spent + 1
    ensures InSlots(merged, values, used', deltas, spent') && merged.View() == Folded([m], KeyOf(m))
    ensures MetricKey(merged) == KeyOf(m)
    ensures merged.value.Some? ==> merged.value.value.at == used
    ensures merged.delta.Some? ==> merged.delta.value.at == spent
    ensures forall i | 0 <= i < used :: values[i] == old(values[i])
    ensures forall i | 0 <= i < spent :: deltas[i] == old(deltas[i])
  {
    FoldedSnoc([], m, KeyOf(m));
    assert [] + [m] == [m];
    if m.mtype == GAUGE {
      values[used] := m.value.value;
      merged := Metric(m.id, m.mtype, None, Some(Ref(values, used)));
      used', spent' := used + 1, spent;
    } else {
      deltas[spent] := m.delta.value;
      merged := Metric(m.id, m.mtype, Some(Ref(deltas, spent)), None);
      used', spent' := used, spent + 1;
    }
  }

  lemma SlottedGrows(out: seq<Metric>, merged: Metric, index: map<Key, nat>, values: array<Float64>, used: nat,
                     used': nat, deltas: array<Int64>, spent: nat, spent': nat)
    requires Slotted(out, index, values, used, deltas, spent)
    requires MetricKey(merged) !in index && InSlots(merged, values, used', deltas, spent')
    requires used <= used' && spent <= spent' && used' + spent' == used + spent + 1
    requires used' <= values.Length && spent' <= deltas.Length
    requires merged.value.Some? ==> merged.value.value.at == used
    requires merged.delta.Some? ==> merged.delta.value.at == spent
    ensures Slotted(out + [merged], index[MetricKey(merged) := |out|], values, used', deltas, spent')
  {
  }

  /** The first metric of a key is its own fold so far. */
  lemma FoldedFirst(seen: seq<Sample>, m: Sample)
    requires KeyOf(m) !in Keys(seen) && Problem(m).None?
    ensures Folded(seen + [m], KeyOf(m)) == Folded([m], KeyOf(m))
  {
    FoldedUnseen(seen, KeyOf(m));
    FoldedSnoc(seen, m, KeyOf(m));
    FoldedSnoc([], m, KeyOf(m));
    assert [] + [m] == [m];
  }

  /** A metric not seen before gets a slot of its own; there is always one left. */
  method Append(ghost seen: seq<Sample>, m: Sample, out: seq<Metric>, index: map<Key, nat>,
                values: array<Float64>, used: nat, deltas: array<Int64>, spent: nat)
    returns (out': seq<Metric>, index': map<Key, nat>, used': nat, spent': nat)
    requires Folding(seen, out, index, values, used, deltas, spent)
    requires |seen| < values.Length && |seen| < deltas.Length
    requires Problem(m).None? && KeyOf(m) !in index
    modifies values, deltas
    ensures Folding(seen + [m], out', index', values, used', deltas, spent')
  {
    var merged;
    merged, used', spent' := NewSlot(m, values, used, deltas, spent);
    out' := out + [merged];
    index' := index[KeyOf(m) := |out|];
    SlottedGrows(out, merged, index, values, used, used', deltas, spent, spent');
    KeysSnoc(seen, m);
    FoldedFirst(seen, m);
    forall j | 0 <= j < |out'|
      ensures out'[j].View() == Folded(seen + [m], MetricKey(out'[j]))
    {
      if j < |out| {
        assert out'[j] == out[j] && InSlots(out[j], values, used, deltas, spent);
        FoldedSnoc(seen, m, MetricKey(out'[j]));
      }
    }
  }

  /** One iteration of the loop. */
  method FoldOne(ghost seen: seq<Sample>, m: Sample, out: seq<Metric>, index: map<Key, nat>,
                 values: array<Float64>, used: nat, deltas: array<Int64>, spent: nat)
    returns (out': seq<Metric>, index': map<Key, nat>, used': nat, spent': nat)
    requires Folding(seen, out, index, values, used, deltas, spent)
    requires |seen| < values.Length && |seen| < deltas.Length && Problem(m).None?
    modifies values, deltas
    ensures Folding(seen + [m], out', index', values, used', deltas, spent')
  {
    if KeyOf(m) in index {
      Merge(seen, m, out, index, values, used, deltas, spent);
      out', index', used', spent' := out, index, used, spent;
    } else {
      out', index', used', spent' := Append(seen, m, out, index, values, used, deltas, spent);
    }
  }

  ghost predicate Ordered(ms: seq<Metric>) {
    forall i, j | 0 <= i < j < |ms| :: KeyLess(MetricKey(ms[i]), MetricKey(ms[j]))
  }

  ghost predicate DistinctKeys(ms: seq<Metric>) {
    forall i, j | 0 <= i < j < |ms| :: MetricKey(ms[i]) != MetricKey(ms[j])
  }

  /** slices.SortFunc on the folded batch, whose keys are all different. */
  method SortByKey(ms: seq<Metric>) returns (sorted: seq<Metric>)
    requires DistinctKeys(ms)
    ensures Ordered(sorted) && multiset(sorted) == multiset(ms)
  {
    sorted := [];
    for i := 0 to |ms|
      invariant Ordered(sorted) && multiset(sorted) == multiset(ms[..i])
    {
      assert ms[..i + 1] == ms[..i] + [ms[i]];
      forall n | 0 <= n < |sorted|
        ensures MetricKey(sorted[n]) != MetricKey(ms[i])
      {
        assert sorted[n] in multiset(ms[..i]);
        var j :| 0 <= j < i && ms[j] == sorted[n];
      }
      sorted := Insert(sorted, ms[i]);
    }
    assert ms[..|ms|] == ms;
  }

  /** m goes between the smaller metrics and the greater ones. */
  lemma InsertKeepsOrder(ms: seq<Metric>, m: Metric, at: nat)
    requires Ordered(ms) && at <= |ms|
    requires forall n | 0 <= n < at :: KeyLess(MetricKey(ms[n]), MetricKey(m))
    requires at < |ms| ==> KeyLess(MetricKey(m), MetricKey(ms[at]))
    ensures Ordered(ms[..at] + [m] + ms[at..])
  {
    forall n | at <= n < |ms|
      ensures KeyLess(MetricKey(m), MetricKey(ms[n]))
    {
      if at < n {
        KeyLessTransitive(MetricKey(m), MetricKey(ms[at]), MetricKey(ms[n]));
      }
    }
  }

  method Insert(ms: seq<Metric>, m: Metric) returns (longer: seq<Metric>)
    requires Ordered(ms)
    requires forall n | 0 <= n < |ms| :: MetricKey(ms[n]) != MetricKey(m)
    ensures Ordered(longer) && multiset(longer) == multiset(ms) + multiset{m}
  {
    var at := 0;
    while at < |ms| && KeyLess(MetricKey(ms[at]), MetricKey(m))
      invariant 0 <= at <= |ms|
      invariant forall n | 0 <= n < at :: KeyLess(MetricKey(ms[n]), MetricKey(m))
    {
      at := at + 1;
    }
    longer := ms[..at] + [m] + ms[at..];
    assert ms == ms[..at] + ms[at..];
    if at < |ms| {
      KeyLessTotal(MetricKey(m), MetricKey(ms[at]));
    }
    InsertKeepsOrder(ms, m, at);
  }

  /** The error that names the first malformed metric. */
  ghost predicate FirstProblem(ms: seq<Sample>, e: Invalid) {
    exists i :: 0 <= i < |ms| && Wellformed(ms[..i]) && Problem(ms[i]) == Some(e)
  }

  lemma ProblemIsFirst(ms: seq<Sample>, i: nat, e: Invalid)
    requires i < |ms| && Wellformed(ms[..i]) && Problem(ms[i]) == Some(e)
    ensures !Wellformed(ms) && FirstProblem(ms, e)
  {
    assert ms[i] in ms;
  }

  lemma OneMoreWellformed(ms: seq<Sample>, i: nat)
    requires i < |ms| && Wellformed(ms[..i]) && Problem(ms[i]).None?
    ensures ms[..i + 1] == ms[..i] + [ms[i]] && Wellformed(ms[..i + 1])
  {
  }

  /** No two entries write through the same pointer. */
  ghost predicate OwnSlots(ms: seq<Metric>) {
    forall i, j | 0 <= i < j < |ms| :: !ShareSlot(ms[i], ms[j])
  }

  lemma FreshIsApart(ms: seq<Metric>, values: array<Float64>, deltas: array<Int64>)
    requires values !in AllCells(ms) && deltas !in AllCells(ms)
    ensures forall j | 0 <= j < |ms| :: ms[j].Cells() !! {values, deltas}
  {
    forall j | 0 <= j < |ms|
      ensures ms[j].Cells() !! {values, deltas}
    {
      assert ms[j] in ms && forall o | o in ms[j].Cells() :: o in AllCells(ms);
    }
  }

  /** The loop over the raw batch, stopping at the first malformed metric. */
  method FoldAll(metrics: seq<Metric>, ghost input: seq<Sample>, values: array<Float64>, deltas: array<Int64>)
    returns (problem: Option<Invalid>, out: seq<Metric>, index: map<Key, nat>, used: nat, spent: nat)
    requires AllValid(metrics) && input == Views(metrics)
    requires forall j | 0 <= j < |metrics| :: metrics[j].Cells() !! {values, deltas}
    requires values.Length == deltas.Length == |metrics|
    modifies values, deltas
    ensures problem.Some? ==> !Wellformed(input) && FirstProblem(input, problem.value)
    ensures problem.None? ==> Wellformed(input) && Folding(input, out, index, values, used, deltas, spent)
  {
    out, index, used, spent := [], map[], 0, 0;
    for i := 0 to |metrics|
      invariant forall j | 0 <= j < |metrics| :: metrics[j].Valid() && metrics[j].View() == input[j]
      invariant Folding(input[..i], out, index, values, used, deltas, spent)
      invariant Wellformed(input[..i])
    {
      var m := metrics[i].View();
      problem := Problem(m);
      if problem.Some? {
        ProblemIsFirst(input, i, problem.value);
        return;
      }
      OneMoreWellformed(input, i);
      out, index, used, spent := FoldOne(input[..i], m, out, index, values, used, deltas, spent);
    }
    problem := None;
    assert input[..|metrics|] == input;
  }

  /** Reordering the entries keeps each of them in its own slot. */
  lemma SortKeepsSlots(unsorted: seq<Metric>, sorted: seq<Metric>, index: map<Key, nat>,
                       values: array<Float64>, used: nat, deltas: array<Int64>, spent: nat)
    requires Slotted(unsorted, index, values, used, deltas, spent)
    requires Ordered(sorted) && multiset(sorted) == multiset(unsorted)
    ensures AllValid(sorted) && OwnSlots(sorted) && AllCells(sorted) <= {values, deltas}
  {
    forall n | 0 <= n < |sorted|
      ensures InSlots(sorted[n], values, used, deltas, spent)
      ensures MetricKey(sorted[n]) in index && unsorted[index[MetricKey(sorted[n])]] == sorted[n]
    {
      assert sorted[n] in multiset(unsorted);
      var j :| 0 <= j < |unsorted| && unsorted[j] == sorted[n];
    }
    forall i, j | 0 <= i < j < |sorted|
      ensures !ShareSlot(sorted[i], sorted[j])
    {
      KeyLessIrreflexive(MetricKey(sorted[i]));
      var p, q := index[MetricKey(sorted[i])], index[MetricKey(sorted[j])];
      assert p != q;
      assert !ShareSlot(unsorted[p], unsorted[q]) || !ShareSlot(unsorted[q], unsorted[p]);
    }
  }

  /** Every entry is found again after reordering. */
  lemma SortKeepsEntries(unsorted: seq<Metric>, sorted: seq<Metric>, j: nat) returns (n: nat)
    requires multiset(sorted) == multiset(unsorted) && j < |unsorted|
    ensures n < |sorted| && sorted[n] == unsorted[j]
  {
    assert unsorted[j] in multiset(sorted);
    n :| 0 <= n < |sorted| && sorted[n] == unsorted[j];
  }

  /** Reordering the entries turns them into the fold. */
  lemma SortKeepsFold(seen: seq<Sample>, unsorted: seq<Metric>, sorted: seq<Metric>, index: map<Key, nat>,
                      values: array<Float64>, used: nat, deltas: array<Int64>, spent: nat)
    requires Folding(seen, unsorted, index, values, used, deltas, spent)
    requires Ordered(sorted) && multiset(sorted) == multiset(unsorted) && AllValid(sorted)
    ensures IsFold(Views(sorted), seen)
  {
    var vs := Views(sorted);
    forall n | 0 <= n < |vs|
      ensures vs[n] == Folded(seen, KeyOf(vs[n])) && KeyOf(vs[n]) in Keys(seen)
    {
      var j := SortKeepsEntries(sorted, unsorted, n);
    }
    forall k | k in Keys(seen)
      ensures k in Keys(vs)
    {
      var n := SortKeepsEntries(unsorted, sorted, index[k]);
      assert vs[n] in vs;
    }
    assert Keys(vs) == Keys(seen);
  }

  /** The final sort of the loop's result. */
  method SortFold(ghost seen: seq<Sample>, out: seq<Metric>, ghost index: map<Key, nat>,
                  values: array<Float64>, ghost used: nat, deltas: array<Int64>, ghost spent: nat)
    returns (sorted: seq<Metric>)
    requires Folding(seen, out, index, values, used, deltas, spent)
    ensures AllValid(sorted) && OwnSlots(sorted) && AllCells(sorted) <= {values, deltas}
    ensures IsFold(Views(sorted), seen)
  {
    sorted := SortByKey(out);
    SortKeepsSlots(out, sorted, index, values, used, deltas, spent);
    SortKeepsFold(seen, out, sorted, index, values, used, deltas, spent);
  }

  /**
   * aggregateBatch. A malformed metric rejects the batch with the error of the
   * first one; otherwise the result is the fold of the batch. Its entries live
   * in slots of their own that did not exist before, so neither the input nor
   * another entry changes when one is written; nothing is modified here.
   */
  method AggregateBatch(metrics: seq<Metric>) returns (r: Result<seq<Metric>, Invalid>)
    requires AllValid(metrics)
    ensures r.Ok? <==> Wellformed(old(Views(metrics)))
    ensures r.Err? ==> FirstProblem(old(Views(metrics)), r.error)
    ensures r.Ok? ==> AllValid(r.value) && fresh(AllCells(r.value)) && OwnSlots(r.value)
    ensures r.Ok? ==> IsFold(Views(r.value), old(Views(metrics)))
  {
    ghost var input := Views(metrics);
    var values, deltas := new Float64[|metrics|], new Int64[|metrics|];
    FreshIsApart(metrics, values, deltas);
    var problem, out, index, used, spent := FoldAll(metrics, input, values, deltas);
    if problem.Some? {
      return Err(problem.value);
    }
    var sorted := SortFold(input, out, index, values, used, deltas, spent);
    r := Ok(sorted);
  }
}
