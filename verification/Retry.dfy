/** The retry driver: an operation repeated on a schedule while it fails for passing reasons. */
module Retry {
  import opened Wrappers
  import opened GoInt

  /** Durations are counted in nanoseconds. */
  const SECOND: Int64 := 1_000_000_000
  const DEFAULT_INTERVALS: seq<Int64> := [SECOND, 3 * SECOND, 5 * SECOND]

  /** A missing schedule or check stands for the nil fields of retry.Config. */
  datatype Config<!E> = Config(intervals: Option<seq<Int64>>, check: Option<E -> bool>, observed: bool) {
    function Schedule(): seq<Int64> {
      if intervals.None? then DEFAULT_INTERVALS else intervals.value
    }

    predicate Retriable(e: E) {
      check.None? || check.value(e)
    }

    /** Failed call k earns a repetition, if the pause before it is slept through. */
    predicate Announces(k: nat, err: Option<E>) {
      err.Some? && k < |Schedule()| && Retriable(err.value)
    }
  }

  /** What one call of the operation returned. */
  datatype Attempt<T, E> = Attempt(res: T, err: Option<E>)

  /**
   * Everything the driver does not decide: what call k returns, the random
   * draw made after it, and whether the wait after it was slept through or
   * cut short by a cancelled context.
   */
  datatype World<!T, !E> = World(call: nat -> Attempt<T, E>, draw: nat -> nat, slept: nat -> bool)

  /** One OnRetry call. */
  datatype Note<E> = Note(err: E, attempt: nat, pause: Int64)

  /** d stretched by the draw r, which rand.N keeps within a quarter of d. */
  function WithJitter(d: Int64, r: nat): Int64
    requires 0 < d ==> r <= d / 4
  {
    if d <= 0 then d else Add(d, r)
  }

  ghost predicate DrawsInRange<T, E>(cfg: Config<E>, w: World<T, E>) {
    forall k: nat | k < |cfg.Schedule()| && 0 < cfg.Schedule()[k] :: w.draw(k) <= cfg.Schedule()[k] / 4
  }

  function Pause<T, E>(cfg: Config<E>, w: World<T, E>, k: nat): Int64
    requires DrawsInRange(cfg, w) && k < |cfg.Schedule()|
  {
    WithJitter(cfg.Schedule()[k], w.draw(k))
  }

  /** Call k is followed by another one. */
  ghost predicate Repeats<T, E>(cfg: Config<E>, w: World<T, E>, k: nat) {
    cfg.Announces(k, w.call(k).err) && w.slept(k)
  }

  /** The driver makes this many calls: up to and including the first that is not repeated. */
  ghost predicate IsCallCount<T, E>(cfg: Config<E>, w: World<T, E>, calls: nat) {
    && 1 <= calls <= |cfg.Schedule()| + 1
    && (forall k | 0 <= k < calls - 1 :: Repeats(cfg, w, k))
    && !Repeats(cfg, w, calls - 1)
  }

  /** What is called, and what the waits come to, settles how many calls there are. */
  lemma CallCountIsUnique<T, E>(cfg: Config<E>, w: World<T, E>, a: nat, b: nat)
    requires IsCallCount(cfg, w, a) && IsCallCount(cfg, w, b)
    ensures a == b
  {
  }

  /**
   * DoValue. The calls made are those up to the first that is not repeated,
   * and the last of them is what the caller gets. An observer hears of every
   * repetition, numbered from one with its error and pause, and once more
   * only when the wait for a repetition is cut.
   */
  method DoValue<T, E>(cfg: Config<E>, w: World<T, E>) returns (last: Attempt<T, E>, calls: nat, notes: seq<Note<E>>)
    requires DrawsInRange(cfg, w)
    ensures IsCallCount(cfg, w, calls) && last == w.call(calls - 1)
    ensures |notes| == if !cfg.observed then 0 else if cfg.Announces(calls - 1, last.err) then calls else calls - 1
    ensures forall k | 0 <= k < |notes| ::
              && w.call(k).err.Some? && k < |cfg.Schedule()|
              && notes[k] == Note(w.call(k).err.value, k + 1, Pause(cfg, w, k))
  {
    var intervals := cfg.Schedule();
    var attempt := 0;
    notes := [];
    while true
      invariant attempt <= |intervals|
      invariant forall k | 0 <= k < attempt :: Repeats(cfg, w, k)
      invariant |notes| == if cfg.observed then attempt else 0
      invariant forall k | 0 <= k < |notes| ::
                  && w.call(k).err.Some? && k < |intervals|
                  && notes[k] == Note(w.call(k).err.value, k + 1, Pause(cfg, w, k))
      decreases |intervals| - attempt
    {
      last := w.call(attempt);
      calls := attempt + 1;
      if last.err.None? {
        return;
      }
      if attempt >= |intervals| || !cfg.Retriable(last.err.value) {
        return;
      }
      var pause := WithJitter(intervals[attempt], w.draw(attempt));
      if cfg.observed {
        notes := notes + [Note(last.err.value, attempt + 1, pause)];
      }
      if !w.slept(attempt) {
        return;
      }
      attempt := attempt + 1;
    }
  }

  /** Every draw stretches the interval it is made for, by no more than a quarter; other intervals are kept. */
  lemma PauseIsStretchedInterval<T, E>(cfg: Config<E>, w: World<T, E>, k: nat)
    requires DrawsInRange(cfg, w) && k < |cfg.Schedule()|
    ensures var d := cfg.Schedule()[k];
            && (d <= 0 ==> Pause(cfg, w, k) == d)
            && (0 < d && d + d / 4 < TWO_63 ==>
                  Pause(cfg, w, k) - d == w.draw(k) && d <= Pause(cfg, w, k) <= d + d / 4)
  {
  }

  /** A configuration that names nothing repeats every error, on the default schedule. */
  lemma ZeroConfigRepeatsAll<E>(e: E)
    ensures var cfg: Config<E> := Config(None, None, false);
            && cfg.Schedule() == [1_000_000_000, 3_000_000_000, 5_000_000_000]
            && forall k: nat :: cfg.Announces(k, Some(e)) <==> k < 3
  {
  }

  /** A schedule or a check that is named is the one used; a call that succeeds is never repeated. */
  lemma NamedConfigIsUsed<E>(ds: seq<Int64>, check: E -> bool, observed: bool, k: nat, err: Option<E>)
    ensures var cfg := Config(Some(ds), Some(check), observed);
            cfg.Announces(k, err) <==> k < |ds| && err.Some? && check(err.value)
    ensures Config(Some(ds), Some(check), observed).Schedule() == ds
  {
  }

  /** The intervals can be stretched by a quarter without leaving int64. */
  ghost predicate Stretchable(ds: seq<Int64>) {
    forall d | d in ds :: 0 <= d && d + d / 4 < TWO_63
  }

  /** The pauses before the first n repetitions, one after another. */
  ghost function TotalPause<T, E>(cfg: Config<E>, w: World<T, E>, n: nat): int
    requires DrawsInRange(cfg, w) && n <= |cfg.Schedule()|
  {
    if n == 0 then 0 else TotalPause(cfg, w, n - 1) + Pause(cfg, w, n - 1)
  }

  ghost function Budget(ds: seq<Int64>): int {
    if ds == [] then 0 else ds[0] + ds[0] / 4 + Budget(ds[1..])
  }

  lemma {:induction false} BudgetSnoc(ds: seq<Int64>, d: Int64)
    ensures Budget(ds + [d]) == Budget(ds) + d + d / 4
  {
    if ds == [] {
      assert ds + [d] == [d];
    } else {
      BudgetSnoc(ds[1..], d);
      assert (ds + [d])[1..] == ds[1..] + [d];
    }
  }

  /** However the draws fall, the pauses never add up to more than the stretched schedule. */
  lemma {:induction false} PausesWithinBudget<T, E>(cfg: Config<E>, w: World<T, E>, n: nat)
    requires DrawsInRange(cfg, w) && Stretchable(cfg.Schedule()) && n <= |cfg.Schedule()|
    ensures 0 <= TotalPause(cfg, w, n) <= Budget(cfg.Schedule()[..n]) <= Budget(cfg.Schedule())
  {
    var ds := cfg.Schedule();
    if n > 0 {
      PausesWithinBudget(cfg, w, n - 1);
      assert ds[..n] == ds[..n - 1] + [ds[n - 1]];
      BudgetSnoc(ds[..n - 1], ds[n - 1]);
      assert ds[n - 1] in ds;
    }
    BudgetGrows(ds, n);
  }

  lemma {:induction false} BudgetGrows(ds: seq<Int64>, n: nat)
    requires Stretchable(ds) && n <= |ds|
    ensures Budget(ds[..n]) <= Budget(ds)
  {
    if n < |ds| {
      var m := |ds| - 1;
      assert ds == ds[..m] + [ds[m]];
      BudgetSnoc(ds[..m], ds[m]);
      assert ds[m] in ds && forall d | d in ds[..m] :: d in ds;
      BudgetGrows(ds[..m], n);
      assert ds[..m][..n] == ds[..n];
    } else {
      assert ds[..n] == ds;
    }
  }

  ghost function SumOf(ds: seq<Int64>): int {
    if ds == [] then 0 else SumOf(ds[..|ds| - 1]) + ds[|ds| - 1]
  }

  /** However the draws fall, the pauses add up to at least the schedule. */
  lemma {:induction false} PausesReachSchedule<T, E>(cfg: Config<E>, w: World<T, E>, n: nat)
    requires DrawsInRange(cfg, w) && Stretchable(cfg.Schedule()) && n <= |cfg.Schedule()|
    ensures SumOf(cfg.Schedule()[..n]) <= TotalPause(cfg, w, n)
  {
    var ds := cfg.Schedule();
    if n > 0 {
      PausesReachSchedule(cfg, w, n - 1);
      PauseIsStretchedInterval(cfg, w, n - 1);
      assert ds[..n][..n - 1] == ds[..n - 1] && ds[n - 1] in ds;
    }
  }

  /**
   * The default schedule: at most four calls, pauses of at least one, three and
   * five seconds, nine in all, and of at most 11.25 of the 12 seconds a request has.
   */
  lemma DefaultScheduleFitsRequest<T, E>(cfg: Config<E>, w: World<T, E>, n: nat)
    requires cfg.intervals.None? && DrawsInRange(cfg, w) && n <= |cfg.Schedule()|
    ensures |cfg.Schedule()| + 1 == 4
    ensures 1 * SECOND <= Pause(cfg, w, 0) && 3 * SECOND <= Pause(cfg, w, 1) && 5 * SECOND <= Pause(cfg, w, 2)
    ensures TotalPause(cfg, w, n) <= 11 * SECOND + SECOND / 4 < 12 * SECOND
    ensures n == 3 ==> 9 * SECOND <= TotalPause(cfg, w, n)
  {
    PausesWithinBudget(cfg, w, n);
    PausesReachSchedule(cfg, w, n);
    DefaultSums();
    PauseIsStretchedInterval(cfg, w, 0);
    PauseIsStretchedInterval(cfg, w, 1);
    PauseIsStretchedInterval(cfg, w, 2);
    assert DEFAULT_INTERVALS[..3] == DEFAULT_INTERVALS;
  }

  lemma DefaultSums()
    ensures Budget(DEFAULT_INTERVALS) == 11 * SECOND + SECOND / 4 && SumOf(DEFAULT_INTERVALS) == 9 * SECOND
  {
    var ds := DEFAULT_INTERVALS;
    assert ds[1..] == [3 * SECOND, 5 * SECOND] && ds[1..][1..] == [5 * SECOND] && ds[1..][1..][1..] == [];
    assert Budget(ds[1..][1..]) == 5 * SECOND + 5 * SECOND / 4;
    assert Budget(ds[1..]) == 3 * SECOND + 3 * SECOND / 4 + Budget(ds[1..][1..]);
    assert ds[..2] == [SECOND, 3 * SECOND] && ds[..2][..1] == [SECOND] && ds[..2][..1][..0] == [];
    assert SumOf(ds[..2][..1]) == SECOND && SumOf(ds[..2]) == 4 * SECOND;
  }
}
