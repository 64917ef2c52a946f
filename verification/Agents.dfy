/** The agent: collectors write its state, and batches are cut from it. */
module Agents {
  import opened GoInt
  import opened Models
  import opened Batch
  import opened AgentState

  class Agent {
    var gauges: map<string, Float64>
    var counters: map<string, Int64>
    var lastSent: map<string, Int64>
    var cpuCount: nat
    const batchSize: nat

    constructor (size: int)
      ensures gauges == map[] && counters == map[] && lastSent == map[] && cpuCount == 0
      ensures batchSize == if size <= 0 then 32 else size
      ensures CpuGaugesAre(gauges, cpuCount)
    {
      gauges, counters, lastSent, cpuCount := map[], map[], map[], 0;
      batchSize := if size <= 0 then 32 else size;
    }

    method CollectRuntimeMetrics(ms: string -> Float64)
      modifies this
      ensures forall name | name in RUNTIME_NAMES :: name in gauges && gauges[name] == ms(name)
      ensures forall name | name !in RUNTIME_NAMES ::
                (name in gauges <==> name in old(gauges)) && (name in gauges ==> gauges[name] == old(gauges)[name])
      ensures counters == old(counters)[POLL_COUNT := Add(At(old(counters), POLL_COUNT), 1)]
      ensures lastSent == old(lastSent) && cpuCount == old(cpuCount)
      ensures old(CpuGaugesAre(gauges, cpuCount)) ==> CpuGaugesAre(gauges, cpuCount)
    {
      if CpuGaugesAre(gauges, cpuCount) {
        RuntimeKeepsCpus(gauges, cpuCount, ms);
      }
      gauges := AfterRuntime(gauges, ms);
      counters := counters[POLL_COUNT := Add(At(counters, POLL_COUNT), 1)];
    }

    /** False stands for the error; what was collected before is then left alone. */
    method CollectSystemMetrics(r: Reading) returns (ok: bool)
      modifies this
      ensures ok <==> r.Read?
      ensures !ok ==> gauges == old(gauges) && cpuCount == old(cpuCount)
      ensures ok ==> IsSystemUpdate(old(gauges), old(cpuCount), r, gauges) && cpuCount == |r.loads|
      ensures counters == old(counters) && lastSent == old(lastSent)
      ensures old(CpuGaugesAre(gauges, cpuCount)) ==> CpuGaugesAre(gauges, cpuCount)
    {
      if !r.Read? {
        return false;
      }
      ghost var before, count := gauges, cpuCount;
      gauges := gauges[TOTAL_MEMORY := r.total][FREE_MEMORY := r.free];
      SetLoads(r.loads);
      DropCpus(|r.loads|);
      cpuCount := |r.loads|;
      ok := true;
      SystemUpdateHolds(before, count, r, gauges);
      if CpuGaugesAre(before, count) {
        SystemUpdateSetsCpus(before, count, r, gauges);
      }
    }

    method SetLoads(loads: seq<Float64>)
      modifies this`gauges
      ensures gauges == WithLoads(old(gauges), loads)
    {
      for i := 0 to |loads|
        invariant gauges == WithLoads(old(gauges), loads[..i])
      {
        assert loads[..i + 1][..i] == loads[..i];
        gauges := gauges[CPUUtilization(i + 1) := loads[i]];
      }
      assert loads[..|loads|] == loads;
    }

    /** The gauges of the CPUs after the first found are deleted, up to those the last reading left. */
    method DropCpus(found: nat)
      modifies this`gauges
      ensures gauges == Without(old(gauges), found, cpuCount)
    {
      var i := found;
      while i < cpuCount
        invariant found <= i && (i <= cpuCount || i == found)
        invariant gauges == Without(old(gauges), found, i)
      {
        gauges := gauges - {CPUUtilization(i + 1)};
        i := i + 1;
      }
    }

    /** The unsorted batch, gauges first, with the counters marked as sent. */
    method SnapshotBatch() returns (batch: seq<Metric>, gaugeCount: nat)
      modifies this`lastSent
      ensures gaugeCount <= |batch| && AllValid(batch) && fresh(AllCells(batch)) && OwnSlots(batch)
      ensures ListsGauges(Views(batch)[..gaugeCount], gauges)
      ensures Views(batch)[gaugeCount..] == CounterPart(COUNTER_NAMES, counters, old(lastSent))
      ensures lastSent == MarkSent(COUNTER_NAMES, counters, old(lastSent))
    {
      var values, deltas := new Float64[|gauges|], new Int64[|COUNTER_NAMES|];
      batch, gaugeCount := FillBatch(values, deltas);
    }

    method FillBatch(values: array<Float64>, deltas: array<Int64>) returns (batch: seq<Metric>, gaugeCount: nat)
      requires values.Length == |gauges| && deltas.Length == |COUNTER_NAMES|
      modifies this`lastSent, values, deltas
      ensures gaugeCount <= |batch| && AllValid(batch) && AllCells(batch) <= {values, deltas} && OwnSlots(batch)
      ensures ListsGauges(Views(batch)[..gaugeCount], gauges)
      ensures Views(batch)[gaugeCount..] == CounterPart(COUNTER_NAMES, counters, old(lastSent))
      ensures lastSent == MarkSent(COUNTER_NAMES, counters, old(lastSent))
    {
      var out, index, used, listed := ListGauges(values, deltas);
      gaugeCount := |out|;
      ghost var spent;
      batch, index, used, spent := ListCounters(COUNTER_NAMES, listed, out, index, values, used, deltas);
      ghost var unsent := CounterPart(COUNTER_NAMES, counters, old(lastSent));
      ShownBatch(listed, unsent, batch, index, values, used, deltas, spent);
    }

    /** The loop over the counters: those with something to report join the batch, all are marked as sent. */
    method ListCounters(names: seq<string>, ghost listed: seq<Sample>, out: seq<Metric>, index: map<Key, nat>,
                        values: array<Float64>, used: nat, deltas: array<Int64>)
      returns (out': seq<Metric>, index': map<Key, nat>, used': nat, spent: nat)
      requires Showing(listed, out, index, values, used, deltas, 0)
      requires Distinct(names) && deltas.Length == |names| && forall k | k in index :: k.mtype == GAUGE
      modifies this`lastSent, values, deltas
      ensures Showing(listed + CounterPart(names, counters, old(lastSent)), out', index', values, used', deltas, spent)
      ensures lastSent == MarkSent(names, counters, old(lastSent))
    {
      out', index', used', spent := out, index, used, 0;
      ghost var shown := listed;
      for i := 0 to |names|
        invariant Showing(shown, out', index', values, used', deltas, spent)
        invariant shown == listed + CounterPart(names[..i], counters, old(lastSent))
        invariant lastSent == MarkSent(names[..i], counters, old(lastSent))
        invariant spent <= i
        invariant forall k | k in index' && k.mtype == COUNTER :: k.id in names[..i]
      {
        var name := names[i];
        assert names[..i + 1] == names[..i] + [name] && name !in names[..i];
        NamesSnoc(names[..i], name, counters, old(lastSent));
        MarkSentOthers(names[..i], counters, old(lastSent), name);
        var current := At(counters, name);
        var delta := Sub(current, At(lastSent, name));
        lastSent := lastSent[name := current];
        if delta != 0 {
          var m := CounterSample(name, delta);
          out', index', used', spent := AddListed(shown, m, out', index', values, used', deltas, spent);
          shown := shown + [m];
        }
      }
      assert names[..|names|] == names;
    }

    /** The loop over the gauges, in the order the map happens to be walked. */
    method ListGauges(values: array<Float64>, deltas: array<Int64>)
      returns (out: seq<Metric>, index: map<Key, nat>, used: nat, ghost listed: seq<Sample>)
      requires values.Length == |gauges|
      modifies values, deltas
      ensures Showing(listed, out, index, values, used, deltas, 0)
      ensures ListsGauges(listed, gauges)
      ensures forall k | k in index :: k.mtype == GAUGE
    {
      out, index, used, listed := [], map[], 0, [];
      var names := gauges.Keys;
      ghost var done: map<string, Float64> := map[];
      while names != {}
        invariant Showing(listed, out, index, values, used, deltas, 0)
        invariant names <= gauges.Keys && done.Keys == gauges.Keys - names
        invariant forall id | id in done :: done[id] == gauges[id]
        invariant ListsGauges(listed, done)
        invariant used + |names| == values.Length
        invariant forall k | k in index :: k.mtype == GAUGE && k.id in done
      {
        var name :| name in names;
        GaugeListed(listed, done, name, gauges[name]);
        ghost var spent;
        out, index, used, spent :=
          AddListed(listed, GaugeSample(name, gauges[name]), out, index, values, used, deltas, 0);
        listed, done, names := listed + [GaugeSample(name, gauges[name])], done[name := gauges[name]], names - {name};
      }
      assert done == gauges;
    }

    /** The batch of the current state: the same list whatever order the map was walked in. */
    method CollectBatch() returns (batch: seq<Metric>)
      modifies this`lastSent
      ensures AllValid(batch) && fresh(AllCells(batch)) && OwnSlots(batch)
      ensures IsCanonical(Views(batch), gauges, counters, old(lastSent))
      ensures lastSent == MarkSent(COUNTER_NAMES, counters, old(lastSent))
    {
      var unsorted, gaugeCount := SnapshotBatch();
      ghost var vs := Views(unsorted);
      ListedHaveDistinctKeys(unsorted, gaugeCount, gauges);
      var sorted := SortByKey(unsorted[..gaugeCount]);
      batch := sorted + unsorted[gaugeCount..];
      assert Views(unsorted) == vs;
      SortedBatch(unsorted, gaugeCount, sorted, gauges);
    }

    /** The deltas of a batch that did not arrive go back to the accumulator. */
    method ReturnCounters(metrics: seq<Metric>, ghost ms: seq<Sample>)
      requires Shows(metrics, ms)
      modifies this`lastSent
      ensures lastSent == Returned(old(lastSent), ms)
    {
      for i := 0 to |metrics|
        invariant lastSent == Returned(old(lastSent), ms[..i])
      {
        var m := metrics[i].View();
        ReturnedSnoc(old(lastSent), ms[..i], m);
        assert ms[..i + 1] == ms[..i] + [m];
        if m.mtype == COUNTER && m.delta.Some? {
          lastSent := lastSent[m.id := Sub(At(lastSent, m.id), m.delta.value)];
        }
      }
      assert ms[..|metrics|] == ms;
    }

    /**
     * The metrics in chunks, each sent in a request or handed to a worker,
     * until one is not taken; what is left starts with that chunk.
     */
    method OfferChunks<T>(metrics: seq<T>, takes: nat -> bool) returns (rest: seq<T>, ok: bool, taken: seq<seq<T>>)
      requires 0 < batchSize
      ensures IsCut(metrics, batchSize, taken, rest)
      ensures forall i: nat | i < |taken| :: takes(i)
      ensures ok <==> rest == []
      ensures !ok ==> !takes(|taken|)
    {
      var start := 0;
      taken := [];
      while start < |metrics|
        invariant 0 <= start && (start < |metrics| ==> IsCut(metrics, batchSize, taken, metrics[start..]))
        invariant start >= |metrics| ==> IsCut(metrics, batchSize, taken, [])
        invariant forall i: nat | i < |taken| :: takes(i)
        decreases |metrics| - start
      {
        var end := if start + batchSize < |metrics| then start + batchSize else |metrics|;
        if !takes(|taken|) {
          return metrics[start..], false, taken;
        }
        CutOneMore(metrics, batchSize, taken, metrics[start..], end - start);
        assert metrics[start..][..end - start] == metrics[start..end];
        assert metrics[start..][end - start..] == metrics[end..];
        taken := taken + [metrics[start..end]];
        start := start + batchSize;
      }
      rest, ok := [], true;
    }

    /**
     * SendMetrics, and one tick of the reporter: the state is cut into a batch
     * and offered in chunks; the deltas of whatever was not taken go back.
     */
    method Report(takes: nat -> bool)
      returns (ok: bool, taken: seq<seq<Metric>>, rest: seq<Metric>,
               batch: seq<Metric>, ghost ms: seq<Sample>, ghost marked: map<string, Int64>)
      requires 0 < batchSize
      modifies this`lastSent
      ensures IsCanonical(ms, gauges, counters, old(lastSent))
      ensures marked == MarkSent(COUNTER_NAMES, counters, old(lastSent))
      ensures Shows(batch, ms)
      ensures IsCut(batch, batchSize, taken, rest)
      ensures |rest| <= |ms| && (ok <==> rest == [])
      ensures lastSent == Returned(marked, ms[|ms| - |rest|..])
    {
      batch := CollectBatch();
      ms, marked := Views(batch), lastSent;
      ok, taken, rest := OfferOrReturn(batch, takes, ms);
    }

    method OfferOrReturn(batch: seq<Metric>, takes: nat -> bool, ghost ms: seq<Sample>)
      returns (ok: bool, taken: seq<seq<Metric>>, rest: seq<Metric>)
      requires 0 < batchSize && Shows(batch, ms)
      modifies this`lastSent
      ensures IsCut(batch, batchSize, taken, rest)
      ensures |rest| <= |ms| && (ok <==> rest == [])
      ensures lastSent == Returned(old(lastSent), ms[|ms| - |rest|..])
    {
      rest, ok, taken := OfferChunks(batch, takes);
      RestIsSuffix(batch, batchSize, taken, rest);
      if !ok {
        ReturnCounters(rest, ms[|ms| - |rest|..]);
      } else {
        assert ms[|ms|..] == [];
      }
    }
  }

  lemma RestIsSuffix<T>(whole: seq<T>, size: nat, chunks: seq<seq<T>>, rest: seq<T>)
    requires IsCut(whole, size, chunks, rest)
    ensures |rest| <= |whole| && rest == whole[|whole| - |rest|..]
  {
  }

  function WithLoads(gauges: map<string, Float64>, loads: seq<Float64>): map<string, Float64> {
    if loads == [] then gauges
    else WithLoads(gauges, loads[..|loads| - 1])[CPUUtilization(|loads|) := loads[|loads| - 1]]
  }

  function Without(gauges: map<string, Float64>, found: nat, upTo: nat): map<string, Float64> {
    if upTo <= found then gauges else Without(gauges, found, upTo - 1) - {CPUUtilization(upTo)}
  }

  lemma {:induction false} WithLoadsAt(gauges: map<string, Float64>, loads: seq<Float64>, name: string)
    ensures forall n: nat | 1 <= n <= |loads| && name == CPUUtilization(n) ::
              name in WithLoads(gauges, loads) && WithLoads(gauges, loads)[name] == loads[n - 1]
    ensures (forall n: nat | 1 <= n <= |loads| :: name != CPUUtilization(n)) ==>
              && (name in WithLoads(gauges, loads) <==> name in gauges)
              && (name in gauges ==> WithLoads(gauges, loads)[name] == gauges[name])
  {
    if loads != [] {
      WithLoadsAt(gauges, loads[..|loads| - 1], name);
      forall n: nat | 1 <= n <= |loads| && name == CPUUtilization(n)
        ensures name in WithLoads(gauges, loads) && WithLoads(gauges, loads)[name] == loads[n - 1]
      {
        if name == CPUUtilization(|loads|) {
          CPUUtilizationIsInjective(n, |loads|);
        }
      }
    }
  }

  lemma {:induction false} WithoutAt(gauges: map<string, Float64>, found: nat, upTo: nat, name: string)
    ensures forall n: nat | found < n <= upTo && name == CPUUtilization(n) :: name !in Without(gauges, found, upTo)
    ensures (forall n: nat | found < n <= upTo :: name != CPUUtilization(n)) ==>
              && (name in Without(gauges, found, upTo) <==> name in gauges)
              && (name in gauges ==> Without(gauges, found, upTo)[name] == gauges[name])
  {
    if found < upTo {
      WithoutAt(gauges, found, upTo - 1, name);
    }
  }

  lemma SystemUpdateHolds(gauges: map<string, Float64>, count: nat, r: Reading, gauges': map<string, Float64>)
    requires r.Read?
    requires var memory := gauges[TOTAL_MEMORY := r.total][FREE_MEMORY := r.free];
             gauges' == Without(WithLoads(memory, r.loads), |r.loads|, count)
    ensures IsSystemUpdate(gauges, count, r, gauges')
  {
    var start := gauges[TOTAL_MEMORY := r.total][FREE_MEMORY := r.free];
    var loaded := WithLoads(start, r.loads);
    forall name: string
      ensures (forall n: nat | 1 <= n && (n <= |r.loads| || n <= count) :: name != CPUUtilization(n)) ==>
                (name in gauges' <==> name in start) && (name in start ==> gauges'[name] == start[name])
    {
      WithLoadsAt(start, r.loads, name);
      WithoutAt(loaded, |r.loads|, count, name);
    }
    forall n: nat | 1 <= n <= |r.loads|
      ensures CPUUtilization(n) in gauges' && gauges'[CPUUtilization(n)] == r.loads[n - 1]
    {
      var name := CPUUtilization(n);
      WithLoadsAt(start, r.loads, name);
      WithoutAt(loaded, |r.loads|, count, name);
      forall m: nat | |r.loads| < m <= count
        ensures name != CPUUtilization(m)
      {
        if name == CPUUtilization(m) {
          CPUUtilizationIsInjective(n, m);
        }
      }
    }
    forall n: nat | |r.loads| < n <= count
      ensures CPUUtilization(n) !in gauges'
    {
      WithoutAt(loaded, |r.loads|, count, CPUUtilization(n));
    }
    forall n: nat
      ensures CPUUtilization(n) != TOTAL_MEMORY && CPUUtilization(n) != FREE_MEMORY
    {
      OtherNamesAreNotCpus(n);
    }
  }

  // ---------------------------------------------------------------- slots of a batch being listed

  /** out shows the metrics in listed, each from a slot of its own. */
  ghost predicate Showing(listed: seq<Sample>, out: seq<Metric>, index: map<Key, nat>,
                          values: array<Float64>, used: nat, deltas: array<Int64>, spent: nat)
    reads values, deltas
  {
    && Slotted(out, index, values, used, deltas, spent)
    && |out| == |listed| && forall j | 0 <= j < |out| :: out[j].View() == listed[j]
  }

  method AddListed(ghost listed: seq<Sample>, m: Sample, out: seq<Metric>, index: map<Key, nat>,
                   values: array<Float64>, used: nat, deltas: array<Int64>, spent: nat)
    returns (out': seq<Metric>, index': map<Key, nat>, used': nat, spent': nat)
    requires Showing(listed, out, index, values, used, deltas, spent)
    requires HasPayload(m) && (m.mtype == GAUGE ==> m.delta.None?) && (m.mtype == COUNTER ==> m.value.None?)
    requires if m.mtype == GAUGE then used < values.Length else spent < deltas.Length
    requires KeyOf(m) !in index
    modifies values, deltas
    ensures Showing(listed + [m], out', index', values, used', deltas, spent')
    ensures index' == index[KeyOf(m) := |out|]
    ensures if m.mtype == GAUGE then used' == used + 1 && spent' == spent else used' == used && spent' == spent + 1
  {
    var merged;
    merged, used', spent' := NewSlot(m, values, used, deltas, spent);
    out' := out + [merged];
    index' := index[KeyOf(m) := |out|];
    SlottedGrows(out, merged, index, values, used, used', deltas, spent, spent');
    FoldedAlone(m);
    forall j | 0 <= j < |out'|
      ensures out'[j].View() == (listed + [m])[j]
    {
      if j < |out| {
        assert out'[j] == out[j] && InSlots(out[j], values, used, deltas, spent);
      }
    }
  }

  lemma FoldedAlone(m: Sample)
    requires HasPayload(m)
    ensures m.mtype == GAUGE ==> Folded([m], KeyOf(m)) == GaugeSample(m.id, m.value.value)
    ensures m.mtype == COUNTER ==> Folded([m], KeyOf(m)) == CounterSample(m.id, m.delta.value)
  {
    FoldedSnoc([], m, KeyOf(m));
    assert [] + [m] == [m];
  }

  lemma GaugeListed(ms: seq<Sample>, gauges: map<string, Float64>, id: string, v: Float64)
    requires ListsGauges(ms, gauges) && id !in gauges
    ensures ListsGauges(ms + [GaugeSample(id, v)], gauges[id := v])
  {
    forall i | 0 <= i < |ms|
      ensures KeyOf(ms[i]) != Key(GAUGE, id)
    {
      assert ms[i] in ms;
    }
  }

  lemma ShownBatch(listed: seq<Sample>, part: seq<Sample>, out: seq<Metric>, index: map<Key, nat>,
                   values: array<Float64>, used: nat, deltas: array<Int64>, spent: nat)
    requires Showing(listed + part, out, index, values, used, deltas, spent)
    ensures AllValid(out) && AllCells(out) <= {values, deltas} && OwnSlots(out)
    ensures Views(out)[..|listed|] == listed && Views(out)[|listed|..] == part
  {
    forall m | m in out
      ensures m.Valid() && m.Cells() <= {values, deltas}
    {
      var j :| 0 <= j < |out| && out[j] == m;
      assert InSlots(out[j], values, used, deltas, spent);
    }
    assert Views(out) == listed + part;
  }

  lemma ListedHaveDistinctKeys(batch: seq<Metric>, n: nat, gauges: map<string, Float64>)
    requires AllValid(batch) && n <= |batch| && ListsGauges(Views(batch)[..n], gauges)
    ensures DistinctKeys(batch[..n])
  {
    var vs := Views(batch);
    forall i, j | 0 <= i < j < n
      ensures MetricKey(batch[..n][i]) != MetricKey(batch[..n][j])
    {
      assert KeyOf(vs[..n][i]) != KeyOf(vs[..n][j]);
    }
  }

  /** An entry of a reordered list is an entry of the original. */
  lemma FoundIn<T>(a: seq<T>, b: seq<T>, i: nat) returns (j: nat)
    requires multiset(a) == multiset(b) && i < |a|
    ensures j < |b| && b[j] == a[i]
  {
    assert a[i] in multiset(b);
    j :| 0 <= j < |b| && b[j] == a[i];
  }

  lemma ReorderedSlots(batch: seq<Metric>, n: nat, sorted: seq<Metric>)
    requires AllValid(batch) && OwnSlots(batch) && n <= |batch|
    requires Ordered(sorted) && multiset(sorted) == multiset(batch[..n])
    ensures AllValid(sorted + batch[n..]) && OwnSlots(sorted + batch[n..])
    ensures AllCells(sorted + batch[n..]) <= AllCells(batch)
  {
    forall m | m in sorted
      ensures m in batch
    {
      assert m in multiset(batch[..n]);
    }
    var all := sorted + batch[n..];
    forall i, j | 0 <= i < j < |all|
      ensures !ShareSlot(all[i], all[j])
    {
      if i < |sorted| {
        var p := FoundIn(sorted, batch[..n], i);
        if j < |sorted| {
          var q := FoundIn(sorted, batch[..n], j);
          KeyLessIrreflexive(MetricKey(all[i]));
          assert p != q;
          if p < q {
            assert !ShareSlot(batch[p], batch[q]);
          } else {
            assert !ShareSlot(batch[q], batch[p]);
          }
        } else {
          assert |sorted| == n by {
            assert |multiset(sorted)| == |multiset(batch[..n])|;
          }
          assert all[j] == batch[j] && !ShareSlot(batch[p], batch[j]);
        }
      } else {
        assert |multiset(sorted)| == |multiset(batch[..n])|;
        assert all[i] == batch[i] && all[j] == batch[j];
      }
    }
  }

  lemma ReorderedListing(batch: seq<Metric>, n: nat, sorted: seq<Metric>, gauges: map<string, Float64>)
    requires AllValid(batch) && n <= |batch| && AllValid(sorted) && ListsGauges(Views(batch)[..n], gauges)
    requires Ordered(sorted) && multiset(sorted) == multiset(batch[..n])
    ensures ListsGauges(Views(sorted), gauges) && Increasing(Views(sorted))
  {
    var vs, before := Views(sorted), Views(batch);
    assert Increasing(vs);
    forall i | 0 <= i < |vs|
      ensures vs[i] in before[..n]
    {
      var j := FoundIn(sorted, batch[..n], i);
      assert before[..n][j] == vs[i];
    }
    forall id | id in gauges
      ensures GaugeSample(id, gauges[id]) in vs
    {
      assert GaugeSample(id, gauges[id]) in before[..n];
      var i :| 0 <= i < n && before[..n][i] == GaugeSample(id, gauges[id]);
      var j := FoundIn(batch[..n], sorted, i);
      assert vs[j] == before[i];
    }
    forall i, j | 0 <= i < j < |vs|
      ensures KeyOf(vs[i]) != KeyOf(vs[j])
    {
      KeyLessIrreflexive(KeyOf(vs[i]));
    }
  }

  lemma SortedBatch(batch: seq<Metric>, n: nat, sorted: seq<Metric>, gauges: map<string, Float64>)
    requires AllValid(batch) && OwnSlots(batch) && n <= |batch| && ListsGauges(Views(batch)[..n], gauges)
    requires Ordered(sorted) && multiset(sorted) == multiset(batch[..n])
    ensures AllValid(sorted + batch[n..]) && OwnSlots(sorted + batch[n..])
    ensures AllCells(sorted + batch[n..]) <= AllCells(batch)
    ensures AllValid(sorted) && ListsGauges(Views(sorted), gauges) && Increasing(Views(sorted))
    ensures Views(sorted + batch[n..]) == Views(sorted) + Views(batch)[n..]
  {
    ReorderedSlots(batch, n, sorted);
    forall m | m in sorted
      ensures m.Valid()
    {
      assert m in sorted + batch[n..];
    }
    ReorderedListing(batch, n, sorted, gauges);
    assert |multiset(sorted)| == |multiset(batch[..n])|;
    ViewsJoin(sorted, batch, n);
  }

  lemma ViewsJoin(front: seq<Metric>, batch: seq<Metric>, n: nat)
    requires AllValid(front) && AllValid(batch) && n == |front| <= |batch| && AllValid(front + batch[n..])
    ensures Views(front + batch[n..]) == Views(front) + Views(batch)[n..]
  {
    var joined := front + batch[n..];
    forall i | 0 <= i < |joined|
      ensures Views(joined)[i] == (Views(front) + Views(batch)[n..])[i]
    {
      assert joined[i] == if i < n then front[i] else batch[i];
    }
  }
}
