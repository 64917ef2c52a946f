/** The agent's state: what it collects, what it has marked as sent, and the batches it cuts. */
module AgentState {
  import opened GoInt
  import opened Models
  import opened Batch

  const POLL_COUNT := "PollCount"
  const COUNTER_NAMES := [POLL_COUNT]

  const RUNTIME_NAMES := [
    "Alloc", "BuckHashSys", "Frees", "GCCPUFraction", "GCSys", "HeapAlloc", "HeapIdle", "HeapInuse",
    "HeapObjects", "HeapReleased", "HeapSys", "LastGC", "Lookups", "MCacheInuse", "MCacheSys",
    "MSpanInuse", "MSpanSys", "Mallocs", "NextGC", "NumForcedGC", "NumGC", "OtherSys",
    "PauseTotalNs", "StackInuse", "StackSys", "Sys", "TotalAlloc", "RandomValue"]
  const TOTAL_MEMORY := "TotalMemory"
  const FREE_MEMORY := "FreeMemory"

  // ---------------------------------------------------------------- names of the CPU gauges

  function Digit(d: nat): char
    requires d < 10
  {
    "0123456789"[d]
  }

  /** strconv.Itoa on a number that is not negative. */
  function Itoa(n: nat): string {
    if n < 10 then [Digit(n)] else Itoa(n / 10) + [Digit(n % 10)]
  }

  function DigitValue(c: char): nat {
    if '0' <= c <= '9' then (c - '0') as nat else 0
  }

  function Atoi(s: string): nat {
    if s == "" then 0 else 10 * Atoi(s[..|s| - 1]) + DigitValue(s[|s| - 1])
  }

  lemma {:induction false} AtoiItoa(n: nat)
    ensures Atoi(Itoa(n)) == n
  {
    if n >= 10 {
      AtoiItoa(n / 10);
      assert Itoa(n)[..|Itoa(n)| - 1] == Itoa(n / 10);
      assert DigitValue(Digit(n % 10)) == n % 10;
    } else {
      assert [Digit(n)][..0] == [];
      assert DigitValue(Digit(n)) == n;
    }
  }

  const CPU_PREFIX := "CPUutilization"

  /** The gauge carrying the load of the n-th CPU. */
  function CPUUtilization(n: nat): string {
    CPU_PREFIX + Itoa(n)
  }

  /** Different CPUs have different gauges. */
  lemma CPUUtilizationIsInjective(m: nat, n: nat)
    requires CPUUtilization(m) == CPUUtilization(n)
    ensures m == n
  {
    assert Itoa(m) == CPUUtilization(m)[|CPU_PREFIX|..] == CPUUtilization(n)[|CPU_PREFIX|..] == Itoa(n);
    AtoiItoa(m);
    AtoiItoa(n);
  }

  /** No other gauge the agent writes has the name of a CPU. */
  lemma OtherNamesAreNotCpus(n: nat)
    ensures CPUUtilization(n) !in RUNTIME_NAMES
    ensures CPUUtilization(n) != TOTAL_MEMORY && CPUUtilization(n) != FREE_MEMORY
  {
    assert CPUUtilization(n)[0] == 'C';
    assert forall name | name in RUNTIME_NAMES :: name[0] != 'C';
  }

  // ---------------------------------------------------------------- collecting

  /** A reading of the host: either statistic may be unavailable. */
  datatype Reading = MemoryFailed | CpuFailed | Read(total: Float64, free: Float64, loads: seq<Float64>)

  function AfterRuntime(gauges: map<string, Float64>, ms: string -> Float64): map<string, Float64> {
    gauges + map name | name in RUNTIME_NAMES :: ms(name)
  }

  /** The CPU gauges are those of the CPUs numbered 1 to count. */
  ghost predicate CpuGaugesAre(gauges: map<string, Float64>, count: nat) {
    forall n: nat | 1 <= n :: CPUUtilization(n) in gauges <==> n <= count
  }

  /** What a successful reading leaves: its values, the CPUs it found, and nothing of the CPUs that went away. */
  ghost predicate IsSystemUpdate(gauges: map<string, Float64>, count: nat, r: Reading, gauges': map<string, Float64>)
    requires r.Read?
  {
    && TOTAL_MEMORY in gauges' && gauges'[TOTAL_MEMORY] == r.total
    && FREE_MEMORY in gauges' && gauges'[FREE_MEMORY] == r.free
    && (forall n: nat | 1 <= n <= |r.loads| ::
          CPUUtilization(n) in gauges' && gauges'[CPUUtilization(n)] == r.loads[n - 1])
    && (forall n: nat | |r.loads| < n <= count :: CPUUtilization(n) !in gauges')
    && (forall name | !Touched(name, count, r) ::
          (name in gauges' <==> name in gauges) && (name in gauges ==> gauges'[name] == gauges[name]))
  }

  /** The reading writes or deletes the gauge of that name. */
  ghost predicate Touched(name: string, count: nat, r: Reading)
    requires r.Read?
  {
    || name == TOTAL_MEMORY || name == FREE_MEMORY
    || (exists n: nat :: 1 <= n && (n <= |r.loads| || n <= count) && name == CPUUtilization(n))
  }

  /** After a reading the CPU gauges are exactly those of the CPUs it found. */
  lemma SystemUpdateSetsCpus(gauges: map<string, Float64>, count: nat, r: Reading, gauges': map<string, Float64>)
    requires r.Read? && CpuGaugesAre(gauges, count) && IsSystemUpdate(gauges, count, r, gauges')
    ensures CpuGaugesAre(gauges', |r.loads|)
  {
    forall n: nat | 1 <= n
      ensures CPUUtilization(n) in gauges' <==> n <= |r.loads|
    {
      if n > |r.loads| && n > count {
        OtherNamesAreNotCpus(n);
        if Touched(CPUUtilization(n), count, r) {
          var m: nat :| 1 <= m && (m <= |r.loads| || m <= count) && CPUUtilization(n) == CPUUtilization(m);
          CPUUtilizationIsInjective(n, m);
        }
      }
    }
  }

  lemma RuntimeKeepsCpus(gauges: map<string, Float64>, count: nat, ms: string -> Float64)
    requires CpuGaugesAre(gauges, count)
    ensures CpuGaugesAre(AfterRuntime(gauges, ms), count)
  {
    forall n: nat | 1 <= n
      ensures CPUUtilization(n) in AfterRuntime(gauges, ms) <==> n <= count
    {
      OtherNamesAreNotCpus(n);
    }
  }

  // ---------------------------------------------------------------- counters and batches

  /** A Go map read: a missing name counts from zero. */
  function At(m: map<string, Int64>, name: string): Int64 {
    if name in m then m[name] else 0
  }

  /** What has been counted since it was last marked as sent. */
  function Unsent(counters: map<string, Int64>, lastSent: map<string, Int64>, name: string): Int64 {
    Sub(At(counters, name), At(lastSent, name))
  }

  /** The counters of a batch: those with something to report, in the order of the names. */
  function CounterPart(names: seq<string>, counters: map<string, Int64>, lastSent: map<string, Int64>): seq<Sample> {
    if names == [] then []
    else
      var name := names[|names| - 1];
      CounterPart(names[..|names| - 1], counters, lastSent)
      + if Unsent(counters, lastSent, name) == 0 then [] else [CounterSample(name, Unsent(counters, lastSent, name))]
  }

  function MarkSent(names: seq<string>, counters: map<string, Int64>,
                    lastSent: map<string, Int64>): map<string, Int64> {
    if names == [] then lastSent
    else
      var name := names[|names| - 1];
      MarkSent(names[..|names| - 1], counters, lastSent)[name := At(counters, name)]
  }

  lemma {:induction false} MarkSentOthers(names: seq<string>, counters: map<string, Int64>,
                                          lastSent: map<string, Int64>, other: string)
    requires other !in names
    ensures At(MarkSent(names, counters, lastSent), other) == At(lastSent, other)
  {
    if names != [] {
      MarkSentOthers(names[..|names| - 1], counters, lastSent, other);
    }
  }

  /** One more name looked at. */
  lemma NamesSnoc(names: seq<string>, name: string, counters: map<string, Int64>, lastSent: map<string, Int64>)
    ensures MarkSent(names + [name], counters, lastSent)
         == MarkSent(names, counters, lastSent)[name := At(counters, name)]
    ensures CounterPart(names + [name], counters, lastSent) ==
            CounterPart(names, counters, lastSent)
            + if Unsent(counters, lastSent, name) == 0 then []
              else [CounterSample(name, Unsent(counters, lastSent, name))]
  {
    assert (names + [name])[..|names + [name]| - 1] == names;
  }

  ghost predicate Distinct(names: seq<string>) {
    forall i, j | 0 <= i < j < |names| :: names[i] != names[j]
  }

  /** The deltas of an unsent batch given back. */
  function Returned(lastSent: map<string, Int64>, ms: seq<Sample>): map<string, Int64> {
    if ms == [] then lastSent
    else
      var m := ms[|ms| - 1];
      var front := Returned(lastSent, ms[..|ms| - 1]);
      if m.mtype == COUNTER && m.delta.Some? then front[m.id := Sub(At(front, m.id), m.delta.value)] else front
  }

  lemma ReturnedSnoc(lastSent: map<string, Int64>, ms: seq<Sample>, m: Sample)
    ensures Returned(lastSent, ms + [m]) ==
            var front := Returned(lastSent, ms);
            if m.mtype == COUNTER && m.delta.Some? then front[m.id := Sub(At(front, m.id), m.delta.value)] else front
  {
    assert (ms + [m])[..|ms + [m]| - 1] == ms;
  }

  /** A batch carries a counter exactly with all that is unsent of it, if that is anything. */
  lemma {:induction false} CarriedExactlyWhenUnsent(names: seq<string>, counters: map<string, Int64>,
                                                    lastSent: map<string, Int64>, m: Sample)
    ensures m in CounterPart(names, counters, lastSent) <==>
              && m.id in names && m == CounterSample(m.id, Unsent(counters, lastSent, m.id))
              && At(counters, m.id) != At(lastSent, m.id)
  {
    if names != [] {
      CarriedExactlyWhenUnsent(names[..|names| - 1], counters, lastSent, m);
      assert m.id in names <==> m.id in names[..|names| - 1] || m.id == names[|names| - 1];
    }
  }

  /** Marking leaves nothing of those counters unsent, and the others as they were. */
  lemma {:induction false} NothingUnsentOnceMarked(names: seq<string>, counters: map<string, Int64>,
                                                   lastSent: map<string, Int64>, name: string)
    ensures At(MarkSent(names, counters, lastSent), name)
         == if name in names then At(counters, name) else At(lastSent, name)
    ensures name in names ==> Unsent(counters, MarkSent(names, counters, lastSent), name) == 0
  {
    if names != [] {
      NothingUnsentOnceMarked(names[..|names| - 1], counters, lastSent, name);
    }
  }

  /** Giving a batch back takes the wrapped sum of its deltas off each counter. */
  lemma {:induction false} ReturnedPerCounter(lastSent: map<string, Int64>, ms: seq<Sample>, id: string)
    ensures Add(At(Returned(lastSent, ms), id), DeltaSum(ms, Key(COUNTER, id))) == At(lastSent, id)
  {
    if ms != [] {
      var front, m := ms[..|ms| - 1], ms[|ms| - 1];
      ReturnedPerCounter(lastSent, front, id);
      if KeyOf(m) == Key(COUNTER, id) && m.delta.Some? {
        SubtractedComesBack(At(Returned(lastSent, front), id), DeltaSum(front, Key(COUNTER, id)), m.delta.value);
      }
    }
  }

  /** Taking d off a while b grows by d changes nothing in the sum. */
  lemma SubtractedComesBack(a: Int64, b: Int64, d: Int64)
    ensures Add(Sub(a, d), Add(b, d)) == Add(a, b)
  {
  }

  lemma DeltaOfOneMore(part: seq<Sample>, name: string, d: Int64, id: string)
    ensures DeltaSum(part + (if d == 0 then [] else [CounterSample(name, d)]), Key(COUNTER, id))
         == if id == name then Add(DeltaSum(part, Key(COUNTER, id)), d) else DeltaSum(part, Key(COUNTER, id))
  {
    var longer := part + [CounterSample(name, d)];
    assert longer[..|longer| - 1] == part && longer[|longer| - 1] == CounterSample(name, d);
    assert part + [] == part;
  }

  lemma {:induction false} DeltaOfCounterPart(names: seq<string>, counters: map<string, Int64>,
                                              lastSent: map<string, Int64>, id: string)
    requires Distinct(names)
    ensures DeltaSum(CounterPart(names, counters, lastSent), Key(COUNTER, id))
         == if id in names then Unsent(counters, lastSent, id) else 0
  {
    if names != [] {
      var front, name := names[..|names| - 1], names[|names| - 1];
      NamesWithoutLast(names, id);
      DeltaOfCounterPart(front, counters, lastSent, id);
      DeltaOfOneMore(CounterPart(front, counters, lastSent), name, Unsent(counters, lastSent, name), id);
    }
  }

  lemma NamesWithoutLast(names: seq<string>, id: string)
    requires Distinct(names) && names != []
    ensures var front, name := names[..|names| - 1], names[|names| - 1];
            Distinct(front) && name !in front && (id in names <==> id in front || id == name)
  {
  }

  /** A batch that is cut and given back leaves every counter as unsent as it was. */
  lemma ReturningUndoesMarking(names: seq<string>, counters: map<string, Int64>, lastSent: map<string, Int64>,
                               id: string)
    requires Distinct(names)
    ensures var part, marked := CounterPart(names, counters, lastSent), MarkSent(names, counters, lastSent);
            At(Returned(marked, part), id) == At(lastSent, id)
  {
    var part, marked := CounterPart(names, counters, lastSent), MarkSent(names, counters, lastSent);
    DeltaOfCounterPart(names, counters, lastSent, id);
    NothingUnsentOnceMarked(names, counters, lastSent, id);
    ReturnedPerCounter(marked, part, id);
  }

  /** The gauges of the state, each once. */
  ghost predicate ListsGauges(ms: seq<Sample>, gauges: map<string, Float64>) {
    && (forall m | m in ms :: m.id in gauges && m == GaugeSample(m.id, gauges[m.id]))
    && (forall id | id in gauges :: GaugeSample(id, gauges[id]) in ms)
    && (forall i, j | 0 <= i < j < |ms| :: KeyOf(ms[i]) != KeyOf(ms[j]))
  }

  /** The batch of a state: its gauges by name, then its counters with something to report. */
  ghost predicate IsCanonical(batch: seq<Sample>, gauges: map<string, Float64>,
                              counters: map<string, Int64>, lastSent: map<string, Int64>) {
    exists gs :: && ListsGauges(gs, gauges) && Increasing(gs)
                 && batch == gs + CounterPart(COUNTER_NAMES, counters, lastSent)
  }

  lemma ListedKeys(gs: seq<Sample>, gauges: map<string, Float64>)
    requires ListsGauges(gs, gauges)
    ensures Keys(gs) == set id | id in gauges :: Key(GAUGE, id)
  {
    forall id | id in gauges
      ensures Key(GAUGE, id) in Keys(gs)
    {
      assert KeyOf(GaugeSample(id, gauges[id])) == Key(GAUGE, id);
    }
  }

  /** Whatever order the map is walked in, the batch comes out the same. */
  lemma CanonicalIsUnique(a: seq<Sample>, b: seq<Sample>, gauges: map<string, Float64>,
                          counters: map<string, Int64>, lastSent: map<string, Int64>)
    requires IsCanonical(a, gauges, counters, lastSent) && IsCanonical(b, gauges, counters, lastSent)
    ensures a == b
  {
    var part := CounterPart(COUNTER_NAMES, counters, lastSent);
    var g :| ListsGauges(g, gauges) && Increasing(g) && a == g + part;
    var h :| ListsGauges(h, gauges) && Increasing(h) && b == h + part;
    ListedKeys(g, gauges);
    ListedKeys(h, gauges);
    SameKeysSameOrder(g, h);
    forall i | 0 <= i < |g|
      ensures g[i] == h[i]
    {
      assert g[i] in g && h[i] in h;
    }
  }

  /** whole cut into full chunks and a last one of what remained, with rest left over. */
  ghost predicate IsCut<T>(whole: seq<T>, size: nat, chunks: seq<seq<T>>, rest: seq<T>) {
    && whole == Joined(chunks) + rest
    && (forall c | c in chunks :: 0 < |c| <= size)
    && (forall i | 0 <= i < |chunks| :: (i < |chunks| - 1 || rest != []) ==> |chunks[i]| == size)
  }

  function Joined<T>(chunks: seq<seq<T>>): seq<T> {
    if chunks == [] then [] else Joined(chunks[..|chunks| - 1]) + chunks[|chunks| - 1]
  }

  lemma CutOneMore<T>(whole: seq<T>, size: nat, chunks: seq<seq<T>>, rest: seq<T>, n: nat)
    requires IsCut(whole, size, chunks, rest) && rest != [] && 0 < size
    requires n == if size < |rest| then size else |rest|
    ensures IsCut(whole, size, chunks + [rest[..n]], rest[n..])
  {
    var more := chunks + [rest[..n]];
    assert more[..|more| - 1] == chunks;
    assert rest == rest[..n] + rest[n..];
    assert Joined(more) + rest[n..] == Joined(chunks) + rest;
  }
}
