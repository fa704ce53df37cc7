/** The adaptive concurrency gate: a slot counter whose limit grows by a tenth with each
    success and halves with each overload, and a window in which nobody is admitted. */
module AdaptiveConcurrency {
  import opened Base

  datatype Gate = Gate(
    limit: real, min: real, max: real, active: int, backoffUntil: real, streak: nat)

  /** What the server's pool status endpoint reports. */
  datatype PoolStats = PoolStats(utilization: real, available: int, poolMax: int, waiting: int)

  /** Conversion to an integer, which cuts towards zero. */
  function Trunc(x: real): int {
    if x >= 0.0 then x.Floor else -((-x).Floor)
  }

  function NewGate(initial: real, min: real, max: real): Gate {
    Gate(MaxReal(min, MinReal(initial, max)), min, max, 0, 0.0, 0)
  }

  /** One pass of the acquire loop finds a slot: the window is over and the limit leaves
      room. */
  predicate Admits(g: Gate, now: real) {
    g.backoffUntil - now <= 0.0 && g.active < Trunc(g.limit)
  }

  function Admitted(g: Gate): Gate {
    g.(active := g.active + 1)
  }

  function SlotFreed(g: Gate): Gate {
    g.(active := if g.active - 1 >= 0 then g.active - 1 else 0)
  }

  function Succeeded(g: Gate): Gate {
    SlotFreed(g).(streak := 0, limit := MinReal(g.max, g.limit + 0.1))
  }

  function Pow15(k: nat): (r: real)
    ensures r >= 1.0
  {
    if k == 0 then 1.0 else 1.5 * Pow15(k - 1)
  }

  function Lengthened(base: real, growth: real): real {
    MinReal(base * growth, 30.0)
  }

  /** The length of the window the n-th consecutive overload opens. */
  function Backoff(retryAfter: real, n: nat): real
    requires n >= 1
  {
    Lengthened(MaxReal(retryAfter, 0.5), Pow15(if n - 1 <= 7 then n - 1 else 7))
  }

  function Overloaded(g: Gate, retryAfter: real, now: real): Gate {
    SlotFreed(g).(streak := g.streak + 1, limit := MaxReal(g.min, g.limit * 0.5),
                  backoffUntil := now + Backoff(retryAfter, g.streak + 1))
  }

  predicate UnderPressure(p: PoolStats) {
    p.utilization > 0.80 || p.available == 0 || p.waiting > 0
  }

  /** The pause a probe of a pool under pressure asks for. */
  function Pause(p: PoolStats): real {
    0.5 + 0.2 * p.waiting as real
  }

  function Probed(g: Gate, p: PoolStats, now: real): Gate {
    if UnderPressure(p) then
      var lower := MaxReal(g.min, g.limit * 0.75);
      if lower < g.limit then g.(limit := lower, backoffUntil := MaxReal(g.backoffUntil, now + Pause(p)))
      else g
    else if p.utilization < 0.40 && p.available >= p.poolMax / 2 then
      var higher := MinReal(g.max, g.limit + 0.2);
      if higher > g.limit + 0.05 then g.(limit := higher) else g
    else g
  }

  class AdaptiveConcurrencyController {
    var limit: real
    const min: real
    const max: real
    var active: int
    var backoffUntil: real
    var streak: nat

    constructor (initialLimit: real, minLimit: real, maxLimit: real)
      ensures Snapshot() == NewGate(initialLimit, minLimit, maxLimit)
    {
      limit := MaxReal(minLimit, MinReal(initialLimit, maxLimit));
      min, max, active, backoffUntil, streak := minLimit, maxLimit, 0, 0.0, 0;
    }

    function Snapshot(): Gate
      reads this
    {
      Gate(limit, min, max, active, backoffUntil, streak)
    }

    /** One pass of the acquire loop, at time `now`; the caller waits and tries again when
        it is not admitted. */
    method TryAcquire(now: real) returns (admitted: bool)
      modifies this
      ensures admitted == Admits(old(Snapshot()), now)
      ensures Snapshot() == if admitted then Admitted(old(Snapshot())) else old(Snapshot())
    {
      var delay := backoffUntil - now;
      if delay > 0.0 {
        return false;
      }
      if active < Trunc(limit) {
        active := active + 1;
        return true;
      }
      return false;
    }

    method ReleaseSuccess()
      modifies this
      ensures Snapshot() == Succeeded(old(Snapshot()))
    {
      active := if active - 1 >= 0 then active - 1 else 0;
      streak := 0;
      limit := MinReal(max, limit + 0.1);
    }

    method ReleaseOverload(retryAfter: real, now: real)
      modifies this
      ensures Snapshot() == Overloaded(old(Snapshot()), retryAfter, now)
    {
      active := if active - 1 >= 0 then active - 1 else 0;
      streak := streak + 1;
      limit := MaxReal(min, limit * 0.5);
      backoffUntil := now + Backoff(retryAfter, streak);
    }

    method ReleaseError()
      modifies this
      ensures Snapshot() == SlotFreed(old(Snapshot()))
    {
      active := if active - 1 >= 0 then active - 1 else 0;
    }

    method Probe(p: PoolStats, now: real)
      modifies this
      ensures Snapshot() == Probed(old(Snapshot()), p, now)
    {
      if p.utilization > 0.80 || p.available == 0 || p.waiting > 0 {
        var lower := MaxReal(min, limit * 0.75);
        if lower < limit {
          limit := lower;
          backoffUntil := MaxReal(backoffUntil, now + 0.5 + 0.2 * p.waiting as real);
        }
      } else if p.utilization < 0.40 && p.available >= p.poolMax / 2 {
        var higher := MinReal(max, limit + 0.2);
        if higher > limit + 0.05 {
          limit := higher;
        }
      }
    }
  }

  // ---------------------------------------------------------------------------
  // The envelope of the limit

  /** A new gate's limit is within its bounds exactly when the bounds are in order. */
  lemma NewGateInBoundsIff(initial: real, min: real, max: real)
    ensures var g := NewGate(initial, min, max); min <= g.limit <= max <==> min <= max
  {
  }

  /** A first limit within the bounds is kept; nobody holds a slot and no window is open. */
  lemma NewGateIsFresh(initial: real, min: real, max: real)
    ensures var g := NewGate(initial, min, max);
            && (min <= initial <= max ==> g.limit == initial) && (min <= max < initial ==> g.limit == max)
            && (initial < min ==> g.limit == min)
            && g.min == min && g.max == max && g.active == 0 && g.backoffUntil == 0.0 && g.streak == 0
  {
  }

  /** With a limit of zero or more, one more is admitted exactly when the window is over and
      the slots then held are within the limit. */
  lemma AdmitsIff(g: Gate, now: real)
    requires g.limit >= 0.0 && g.active >= 0
    ensures Admits(g, now) <==> now >= g.backoffUntil && (g.active + 1) as real <= g.limit
  {
  }

  /** A release frees one slot, of those there are; only a success ends the streak and raises
      the limit. */
  lemma ReleasesFreeOne(g: Gate)
    requires g.active >= 0
    ensures var active := if g.active >= 1 then g.active - 1 else 0;
            && SlotFreed(g) == g.(active := active)
            && Succeeded(g) == g.(active := active, streak := 0,
                                  limit := if g.limit + 0.1 <= g.max then g.limit + 0.1 else g.max)
  {
  }

  /** A probe lowers the limit by a quarter, at most to the minimum, exactly when the pool is
      over four fifths used, has nothing available or keeps somebody waiting, and the limit is
      positive and above the minimum; it then also opens a window of half a second and a fifth
      for each one waiting, if that is longer. */
  lemma ProbeLowersIff(g: Gate, p: PoolStats, now: real)
    requires g.min <= g.limit <= g.max
    ensures var h := Probed(g, p, now);
            var window := now + 0.5 + 0.2 * p.waiting as real;
            && (h.limit < g.limit <==>
                  (p.utilization > 0.80 || p.available == 0 || p.waiting > 0) && g.limit > 0.0 && g.limit > g.min)
            && (h.limit < g.limit ==>
                  && h.limit == (if g.limit * 0.75 >= g.min then g.limit * 0.75 else g.min)
                  && h.backoffUntil == (if g.backoffUntil >= window then g.backoffUntil else window))
            && (h.limit >= g.limit ==> h.backoffUntil == g.backoffUntil)
            && h.active == g.active && h.streak == g.streak
  {
  }

  /** It raises the limit by a fifth, at most to the maximum, exactly when the pool is under no
      such pressure, less than two fifths used and at least half available, and the limit is
      more than a twentieth below the maximum. */
  lemma ProbeRaisesIff(g: Gate, p: PoolStats, now: real)
    requires g.min <= g.limit <= g.max
    ensures var h := Probed(g, p, now);
            && (h.limit > g.limit <==>
                  && p.utilization < 0.40 && p.available != 0 && p.waiting <= 0 && p.available >= p.poolMax / 2
                  && g.limit + 0.05 < g.max)
            && (h.limit > g.limit ==> h.limit == if g.limit + 0.2 <= g.max then g.limit + 0.2 else g.max)
  {
  }

  function OverloadedBy(g: Gate, calls: seq<(real, real)>): Gate {
    if calls == [] then g
    else
      var last := calls[|calls| - 1];
      Overloaded(OverloadedBy(g, calls[..|calls| - 1]), last.0, last.1)
  }

  lemma HalfOfQuotient(x: real, p: real)
    requires p > 0.0
    ensures x / (2.0 * p) == (x / p) * 0.5
  {
    assert (2.0 * p) * ((x / p) * 0.5) == x;
  }

  lemma NegativeQuotient(x: real, p: real)
    requires p >= 1.0
    ensures x < 0.0 ==> x / p >= x
    ensures x >= 0.0 ==> x / p >= 0.0
  {
    var q := x / p;
    assert q * p == x;
    if x < 0.0 {
      assert q < 0.0;
      assert q * p <= q;
    }
  }

  /** k overloads in a row take a limit L to exactly max(min, L / 2^k), whatever the
      server asks for and whenever they come. */
  lemma {:induction false} HalvingExact(g: Gate, calls: seq<(real, real)>)
    requires g.min <= g.limit
    ensures var h := OverloadedBy(g, calls);
            && h.limit == MaxReal(g.min, g.limit / Pow2(|calls|) as real)
            && h.min == g.min && h.max == g.max && h.streak == g.streak + |calls|
  {
    if calls != [] {
      var front := calls[..|calls| - 1];
      HalvingExact(g, front);
      var p := Pow2(|front|) as real;
      assert Pow2(|calls|) as real == 2.0 * p;
      HalfOfQuotient(g.limit, p);
      NegativeQuotient(g.limit, p);
    }
  }

  function SucceededBy(g: Gate, n: nat): Gate {
    if n == 0 then g else Succeeded(SucceededBy(g, n - 1))
  }

  /** n successes in a row take a limit L to exactly min(max, L + n / 10). */
  lemma {:induction false} GrowthExact(g: Gate, n: nat)
    requires g.limit <= g.max
    ensures var h := SucceededBy(g, n);
            h.limit == MinReal(g.max, g.limit + n as real / 10.0) && h.max == g.max
  {
    if n > 0 {
      GrowthExact(g, n - 1);
    }
  }

  // ---------------------------------------------------------------------------
  // The backoff window

  lemma {:induction false} Pow15Grows(a: nat, b: nat)
    requires a <= b
    ensures Pow15(a) <= Pow15(b)
  {
    if a < b {
      Pow15Grows(a, b - 1);
    }
  }

  /** A longer streak never opens a shorter window; a window lasts at least half a
      second and at most thirty. */
  lemma BackoffGrows(retryAfter: real, n: nat, m: nat)
    requires 1 <= n <= m
    ensures 0.5 <= Backoff(retryAfter, n) <= Backoff(retryAfter, m) <= 30.0
  {
    var a, b := if n - 1 <= 7 then n - 1 else 7, if m - 1 <= 7 then m - 1 else 7;
    Pow15Grows(a, b);
    var base := MaxReal(retryAfter, 0.5);
    assert base * Pow15(a) <= base * Pow15(b);
    assert base * Pow15(a) >= base;
  }

  /** The growth of the backoff over a streak: half as much again each time, up to the
      eighth overload. */
  function GrowthOf(n: nat): real {
    if n <= 1 then 1.0 else if n == 2 then 1.5 else if n == 3 then 2.25 else if n == 4 then 3.375
    else if n == 5 then 5.0625 else if n == 6 then 7.59375 else if n == 7 then 11.390625 else 17.0859375
  }

  lemma Pow15Table()
    ensures Pow15(0) == 1.0 && Pow15(1) == 1.5 && Pow15(2) == 2.25 && Pow15(3) == 3.375
    ensures Pow15(4) == 5.0625 && Pow15(5) == 7.59375 && Pow15(6) == 11.390625 && Pow15(7) == 17.0859375
  {
    assert Pow15(0) == 1.0 && Pow15(1) == 1.5 && Pow15(2) == 2.25 && Pow15(3) == 3.375;
  }

  lemma BackoffIs(pause: real, n: nat)
    requires n >= 1
    ensures pause >= 0.5 ==> Backoff(pause, n) == MinReal(pause * GrowthOf(n), 30.0)
    ensures pause < 0.5 ==> Backoff(pause, n) == MinReal(0.5 * GrowthOf(n), 30.0)
  {
    hide *;
    GrowthIsPower(n);
    BackoffIsLengthened(pause, n);
    if pause >= 0.5 {
      LengthenedIs(pause, GrowthOf(n));
    } else {
      LengthenedIs(0.5, GrowthOf(n));
    }
  }

  lemma BackoffIsLengthened(pause: real, n: nat)
    requires n >= 1
    ensures pause >= 0.5 ==> Backoff(pause, n) == Lengthened(pause, Pow15(if n - 1 <= 7 then n - 1 else 7))
    ensures pause < 0.5 ==> Backoff(pause, n) == Lengthened(0.5, Pow15(if n - 1 <= 7 then n - 1 else 7))
  {
    hide Pow15, Lengthened;
  }

  lemma LengthenedIs(base: real, growth: real)
    ensures Lengthened(base, growth) == MinReal(base * growth, 30.0)
  {
  }

  lemma {:induction false} StreakOf(g: Gate, calls: seq<(real, real)>)
    ensures OverloadedBy(g, calls).streak == g.streak + |calls|
  {
    hide Backoff;
    if calls != [] {
      StreakOf(g, calls[..|calls| - 1]);
    }
  }

  /** The last of n overloads in a row opens a window of the pause asked for, but at least
      half a second, times that growth, but at most thirty seconds. */
  lemma {:induction false} WindowOfStreak(g: Gate, calls: seq<(real, real)>, pause: real, at: real)
    requires calls != [] && g.streak == 0 && calls[|calls| - 1] == (pause, at)
    ensures var window := OverloadedBy(g, calls).backoffUntil - at;
            && (pause >= 0.5 ==> window == MinReal(pause * GrowthOf(|calls|), 30.0))
            && (pause < 0.5 ==> window == MinReal(0.5 * GrowthOf(|calls|), 30.0))
  {
    hide Backoff, GrowthOf, Overloaded, OverloadedBy;
    WindowIsBackoff(g, calls);
    BackoffIs(pause, |calls|);
  }

  lemma {:induction false} WindowIsBackoff(g: Gate, calls: seq<(real, real)>)
    requires calls != [] && g.streak == 0
    ensures var (pause, at) := calls[|calls| - 1];
            OverloadedBy(g, calls).backoffUntil == at + Backoff(pause, |calls|)
  {
    hide Backoff;
    StreakOf(g, calls[..|calls| - 1]);
  }

  lemma {:induction false} GrowthIsPower(n: nat)
    requires n >= 1
    ensures Pow15(if n - 1 <= 7 then n - 1 else 7) == GrowthOf(n)
  {
    hide Pow15;
    Pow15Table();
  }

  /** Yet an overload replaces the window instead of extending it: from any gate, an
      overload that asks for one second cuts short a window of thirty that an overload
      opened at the same moment. WindowCutShortIff says when it does. */
  lemma OverloadCanShortenWindow(g: Gate, now: real)
    ensures var first := Overloaded(g, 30.0, now);
            Overloaded(first, 1.0, now).backoffUntil < first.backoffUntil == now + 30.0
  {
    var k := if g.streak + 1 <= 7 then g.streak + 1 else 7;
    Pow15Grows(k, 7);
    Pow15Grows(0, g.streak);
    assert Pow15(1) == 1.5 && Pow15(2) == 2.25 && Pow15(3) == 3.375 && Pow15(4) == 5.0625;
    assert Pow15(5) == 7.59375 && Pow15(6) == 11.390625 && Pow15(7) == 17.0859375;
    assert 30.0 * Pow15(if g.streak <= 7 then g.streak else 7) >= 30.0;
  }

  // ---------------------------------------------------------------------------
  // Runs: callers acquire and release, and probes come in between

  datatype Step =
    | Acquire | Success | Overload(retryAfter: real) | Error
    | Probe(p: PoolStats) | Pass(dt: real)

  /** `outstanding` counts the acquires that have not been released. */
  datatype State = State(now: real, gate: Gate, outstanding: nat)

  predicate Enabled(s: State, step: Step) {
    match step
    case Acquire => Admits(s.gate, s.now)
    case Success => s.outstanding > 0
    case Overload(_) => s.outstanding > 0
    case Error => s.outstanding > 0
    case Probe(_) => true
    case Pass(dt) => dt >= 0.0
  }

  function Next(s: State, step: Step): State
    requires Enabled(s, step)
  {
    match step
    case Acquire => State(s.now, Admitted(s.gate), s.outstanding + 1)
    case Success => State(s.now, Succeeded(s.gate), s.outstanding - 1)
    case Overload(retryAfter) => State(s.now, Overloaded(s.gate, retryAfter, s.now), s.outstanding - 1)
    case Error => State(s.now, SlotFreed(s.gate), s.outstanding - 1)
    case Probe(p) => s.(gate := Probed(s.gate, p, s.now))
    case Pass(dt) => s.(now := s.now + dt)
  }

  predicate Runs(s: State, steps: seq<Step>)
    decreases |steps|
  {
    steps == [] || (Enabled(s, steps[0]) && Runs(Next(s, steps[0]), steps[1..]))
  }

  function Exec(s: State, steps: seq<Step>): State
    requires Runs(s, steps)
    decreases |steps|
  {
    if steps == [] then s else Exec(Next(s, steps[0]), steps[1..])
  }

  function Start(initial: real, min: real, max: real): State {
    State(0.0, NewGate(initial, min, max), 0)
  }

  ghost predicate Valid(s: State) {
    && s.gate.min <= s.gate.limit <= s.gate.max
    && s.gate.active == s.outstanding
    && (s.outstanding > 0 ==> s.outstanding <= Trunc(s.gate.max))
  }

  lemma TruncGrows(x: real, y: real)
    requires x <= y
    ensures Trunc(x) <= Trunc(y)
  {
  }

  lemma StepKeepsValid(s: State, step: Step)
    requires Valid(s) && Enabled(s, step)
    ensures Valid(Next(s, step))
    ensures Next(s, step).gate.min == s.gate.min && Next(s, step).gate.max == s.gate.max
    ensures step.Acquire? ==> Next(s, step).outstanding <= Trunc(s.gate.limit) && s.now >= s.gate.backoffUntil
  {
    hide Backoff;
    TruncGrows(s.gate.limit, s.gate.max);
  }

  lemma {:induction false} RunKeepsValid(s: State, steps: seq<Step>)
    requires Valid(s) && Runs(s, steps)
    ensures Valid(Exec(s, steps))
    ensures Exec(s, steps).gate.min == s.gate.min && Exec(s, steps).gate.max == s.gate.max
    decreases |steps|
  {
    hide Valid, Enabled, Next;
    if steps != [] {
      StepKeepsValid(s, steps[0]);
      RunKeepsValid(Next(s, steps[0]), steps[1..]);
    }
  }

  /** When every acquire is released once, the slot counter is the number of outstanding
      acquires and never exceeds the whole part of the maximum, and the limit stays within
      its bounds, under any mix of releases and probes. */
  lemma {:induction false} SlotAccounting(initial: real, min: real, max: real, steps: seq<Step>)
    requires min <= max && Runs(Start(initial, min, max), steps)
    ensures var s := Exec(Start(initial, min, max), steps);
            && s.gate.active == s.outstanding
            && (s.outstanding == 0 || s.outstanding <= Trunc(max))
            && min <= s.gate.limit <= max
  {
    RunKeepsValid(Start(initial, min, max), steps);
  }

  /** While the server keeps asking for the same pause, nothing succeeds and no probe
      intervenes, the window never ends earlier than it once did. */
  ghost predicate WindowHolds(s: State, retryAfter: real) {
    s.gate.streak == 0 || s.gate.backoffUntil <= s.now + Backoff(retryAfter, s.gate.streak)
  }

  lemma {:induction false} WindowNeverShrinks(s: State, retryAfter: real, steps: seq<Step>)
    requires Runs(s, steps) && WindowHolds(s, retryAfter) && s.gate.streak > 0
    requires forall k | 0 <= k < |steps| ::
               !steps[k].Success? && !steps[k].Probe? && (steps[k].Overload? ==> steps[k].retryAfter == retryAfter)
    ensures Exec(s, steps).gate.backoffUntil >= s.gate.backoffUntil
    decreases |steps|
  {
    if steps != [] {
      BackoffGrows(retryAfter, s.gate.streak, s.gate.streak + 1);
      WindowNeverShrinks(Next(s, steps[0]), retryAfter, steps[1..]);
    }
  }

  // When an overload cuts a window short, over runs.

  function TimePassed(steps: seq<Step>): real {
    if steps == [] then 0.0 else (if steps[0].Pass? then steps[0].dt else 0.0) + TimePassed(steps[1..])
  }

  predicate SomeSuccess(steps: seq<Step>) {
    exists k :: 0 <= k < |steps| && steps[k].Success?
  }

  predicate NoOverload(steps: seq<Step>) {
    forall k | 0 <= k < |steps| :: !steps[k].Overload?
  }

  /** Some probe of the run lowers the limit and asks for a pause beyond `end`. */
  predicate ProbePausesBeyond(s: State, steps: seq<Step>, end: real)
    requires Runs(s, steps)
    decreases |steps|
  {
    steps != [] &&
    ((steps[0].Probe? && UnderPressure(steps[0].p) && MaxReal(s.gate.min, s.gate.limit * 0.75) < s.gate.limit
      && s.now + Pause(steps[0].p) > end)
     || ProbePausesBeyond(Next(s, steps[0]), steps[1..], end))
  }

  /** Between two overloads time passes, a success ends the streak, and only probes move
      the end of the window, never to an earlier time. */
  lemma {:induction false} BetweenOverloads(s: State, steps: seq<Step>, end: real)
    requires Runs(s, steps) && NoOverload(steps)
    ensures var t := Exec(s, steps);
            && t.now == s.now + TimePassed(steps)
            && t.gate.streak == (if SomeSuccess(steps) then 0 else s.gate.streak)
            && t.gate.backoffUntil >= s.gate.backoffUntil
            && (t.gate.backoffUntil > end <==> s.gate.backoffUntil > end || ProbePausesBeyond(s, steps, end))
    decreases |steps|
  {
    if steps != [] {
      hide Backoff, Pause, UnderPressure, Trunc;
      assert forall k | 1 <= k < |steps| :: steps[k] == steps[1..][k - 1];
      SuccessHereOrLater(steps);
      BetweenOverloads(Next(s, steps[0]), steps[1..], end);
    }
  }

  lemma SuccessHereOrLater(steps: seq<Step>)
    requires steps != []
    ensures SomeSuccess(steps) <==> steps[0].Success? || SomeSuccess(steps[1..])
  {
    if k :| 0 <= k < |steps| && steps[k].Success? {
      assert k > 0 ==> steps[1..][k - 1].Success?;
    }
    if k :| 0 <= k < |steps[1..]| && steps[1..][k].Success? {
      assert steps[k + 1].Success?;
    }
  }

  /** The streak of the second of two overloads in a row. */
  function NextStreak(streak: nat, between: seq<Step>): nat {
    if SomeSuccess(between) then 1 else streak + 2
  }

  /** Of two overloads with any steps but overloads between them, the second ends the
      window earlier than the first had announced exactly when less time passed between
      them than its own backoff is shorter; the backoffs depend on the pauses asked for,
      the streak before, and whether a success came between. It ends the window earlier
      than it stood exactly when it does so, or when a probe had asked for a longer pause. */
  lemma {:induction false} WindowCutShortIff(s: State, a: real, between: seq<Step>, b: real)
    requires Enabled(s, Overload(a)) && Runs(Next(s, Overload(a)), between) && NoOverload(between)
    requires Enabled(Exec(Next(s, Overload(a)), between), Overload(b))
    ensures var first := Next(s, Overload(a));
            var before := Exec(first, between);
            var last := Next(before, Overload(b)).gate.backoffUntil;
            && (last < first.gate.backoffUntil <==>
                  TimePassed(between) < Backoff(a, s.gate.streak + 1) - Backoff(b, NextStreak(s.gate.streak, between)))
            && (last < before.gate.backoffUntil <==>
                  last < first.gate.backoffUntil || ProbePausesBeyond(first, between, last))
  {
    hide Backoff, SomeSuccess, NoOverload, Exec, Runs;
    var first := Next(s, Overload(a));
    var before := Exec(first, between);
    BetweenOverloads(first, between, Next(before, Overload(b)).gate.backoffUntil);
  }

  /** So after a success, an overload that asks for the same pause cuts the window short
      exactly when less time passed than the ended streak had lengthened the backoff; it
      had lengthened it exactly when the streak had begun before and the pause is under
      the thirty seconds no window exceeds. */
  lemma {:induction false} SuccessCutsShortIff(s: State, a: real, between: seq<Step>)
    requires Enabled(s, Overload(a)) && Runs(Next(s, Overload(a)), between) && NoOverload(between)
    requires Enabled(Exec(Next(s, Overload(a)), between), Overload(a))
    requires SomeSuccess(between)
    ensures var first := Next(s, Overload(a));
            var lengthened := Backoff(a, s.gate.streak + 1) - Backoff(a, 1);
            && (Next(Exec(first, between), Overload(a)).gate.backoffUntil < first.gate.backoffUntil
                <==> TimePassed(between) < lengthened)
            && (lengthened > 0.0 <==> s.gate.streak >= 1 && a < 30.0)
  {
    hide Runs, Exec, Next, Enabled;
    WindowCutShortIff(s, a, between, a);
    LongerStreakLongerBackoff(a, s.gate.streak + 1);
  }

  lemma LongerStreakLongerBackoff(a: real, n: nat)
    requires n >= 1
    ensures Backoff(a, 1) < Backoff(a, n) <==> n >= 2 && a < 30.0
  {
    var base, k := MaxReal(a, 0.5), if n - 1 <= 7 then n - 1 else 7;
    assert Pow15(0) == 1.0 && Pow15(1) == 1.5;
    if n >= 2 {
      Pow15Grows(1, k);
      assert base * Pow15(k) >= base * 1.5;
    }
  }

  // ---------------------------------------------------------------------------
  // A limit below the number of outstanding acquires

  function Releases(steps: seq<Step>): nat {
    if steps == [] then 0
    else (if steps[0].Success? || steps[0].Overload? || steps[0].Error? then 1 else 0) + Releases(steps[1..])
  }

  /** What successes and probes can add to the limit at most. (A limit below zero, which
      only a negative minimum allows, is also raised by halving it, up to zero.) */
  function Growth(steps: seq<Step>): real {
    if steps == [] then 0.0
    else (if steps[0].Success? then 0.1 else if steps[0].Probe? then 0.2 else 0.0) + Growth(steps[1..])
  }

  lemma {:induction false} Draining(s: State, steps: seq<Step>)
    requires Valid(s) && Runs(s, steps) && forall k | 0 <= k < |steps| :: !steps[k].Acquire?
    ensures var t := Exec(s, steps);
            && t.outstanding == s.outstanding - Releases(steps)
            && t.gate.limit <= MaxReal(s.gate.limit, 0.0) + Growth(steps)
    decreases |steps|
  {
    if steps != [] {
      hide Backoff, Pause, UnderPressure;
      StepKeepsValid(s, steps[0]);
      assert forall k | 1 <= k < |steps| :: steps[k] == steps[1..][k - 1];
      Draining(Next(s, steps[0]), steps[1..]);
    }
  }

  /** Nobody is admitted until the gate has drained: before the next admission, in any
      run, so many acquires are released that those left are fewer than the limit, however
      much successes and probes have raised it. */
  lemma {:induction false} DrainsBeforeAdmitting(s: State, steps: seq<Step>)
    requires Valid(s) && Runs(s, steps) && forall k | 0 <= k < |steps| :: !steps[k].Acquire?
    requires Enabled(Exec(s, steps), Acquire)
    ensures s.outstanding - Releases(steps) < Trunc(MaxReal(s.gate.limit, 0.0) + Growth(steps))
  {
    hide Runs, Exec, Trunc;
    Draining(s, steps);
    RunKeepsValid(s, steps);
    TruncGrows(Exec(s, steps).gate.limit, MaxReal(s.gate.limit, 0.0) + Growth(steps));
  }

  // ---------------------------------------------------------------------------
  // When an idle gate admits

  ghost predicate Reachable(initial: real, min: real, max: real, s: State) {
    exists steps :: Runs(Start(initial, min, max), steps) && Exec(Start(initial, min, max), steps) == s
  }

  /** Nobody holds a slot and the window is over. */
  predicate Idle(s: State) {
    s.outstanding == 0 && s.now >= s.gate.backoffUntil
  }

  ghost predicate IdleAlwaysAdmits(initial: real, min: real, max: real) {
    forall s | Reachable(initial, min, max, s) && Idle(s) :: Admits(s.gate, s.now)
  }

  /** An idle gate always admits exactly when its minimum is at least one. */
  lemma IdleAdmitsIff(initial: real, min: real, max: real)
    requires min <= max
    ensures IdleAlwaysAdmits(initial, min, max) <==> min >= 1.0
  {
    var s0 := Start(initial, min, max);
    if min >= 1.0 {
      forall s | Reachable(initial, min, max, s) && Idle(s)
        ensures Admits(s.gate, s.now)
      {
        var steps :| Runs(s0, steps) && Exec(s0, steps) == s;
        RunKeepsValid(s0, steps);
      }
    } else {
      var steps := Starve(s0);
      var s := Exec(s0, steps);
      assert Reachable(initial, min, max, s);
    }
  }

  lemma {:induction false} Prepend(s: State, step: Step, rest: seq<Step>)
    requires Enabled(s, step) && Runs(Next(s, step), rest)
    ensures Runs(s, [step] + rest) && Exec(s, [step] + rest) == Exec(Next(s, step), rest)
  {
    assert ([step] + rest)[1..] == rest;
  }

  /** Overload after overload drives the limit of a gate with a minimum below one to a
      point where it admits nobody. */
  lemma {:induction false} Starve(s: State) returns (steps: seq<Step>)
    requires Valid(s) && s.gate.min < 1.0 && Idle(s)
    ensures Runs(s, steps) && Idle(Exec(s, steps)) && !Admits(Exec(s, steps).gate, Exec(s, steps).now)
    ensures Exec(s, steps).gate.limit < 1.0
    decreases s.gate.limit.Floor
  {
    if s.gate.limit < 1.0 {
      steps := [];
    } else {
      var s1 := Next(s, Acquire);
      BackoffGrows(1.0, s1.gate.streak + 1, s1.gate.streak + 1);
      var s2 := Next(s1, Overload(1.0));
      var s3 := Next(s2, Pass(30.0));
      assert s3.gate.limit == MaxReal(s.gate.min, s.gate.limit * 0.5);
      StepKeepsValid(s, Acquire);
      StepKeepsValid(s1, Overload(1.0));
      var rest := Starve(s3);
      Prepend(s2, Pass(30.0), rest);
      Prepend(s1, Overload(1.0), [Pass(30.0)] + rest);
      Prepend(s, Acquire, [Overload(1.0)] + ([Pass(30.0)] + rest));
      steps := [Acquire] + ([Overload(1.0)] + ([Pass(30.0)] + rest));
    }
  }

  /** Such a gate stays shut for as long as no probe raises its limit: there is no
      release left that could. */
  lemma {:induction false} StarvedUntilProbe(s: State, steps: seq<Step>)
    requires Runs(s, steps) && s.outstanding == 0 && s.gate.active == 0 && s.gate.limit < 1.0
    requires forall k | 0 <= k < |steps| :: !steps[k].Probe?
    ensures forall k | 0 <= k < |steps| :: steps[k].Pass?
    ensures Exec(s, steps).gate == s.gate
    decreases |steps|
  {
    if steps != [] {
      assert steps[0].Pass?;
      StarvedUntilProbe(Next(s, steps[0]), steps[1..]);
      assert forall k | 1 <= k < |steps| :: steps[k] == steps[1..][k - 1];
    }
  }

  // ---------------------------------------------------------------------------
  // When a shut gate can ever admit again

  ghost predicate CanAdmit(s: State) {
    exists steps :: Runs(s, steps) && Enabled(Exec(s, steps), Acquire)
  }

  /** A limit from which one healthy probe reaches one. */
  predicate Springs(limit: real, max: real) {
    0.8 <= limit < max - 0.05
  }

  /** Probes raise the limit by 0.2 and lower it by a quarter, within the bounds, and do
      not raise it by less than 0.05. */
  predicate Reopens(g: Gate) {
    g.max >= 1.0 && (g.min < g.max - 0.25 || Springs(g.min, g.max) || Springs(g.limit, g.max))
  }

  /** Nobody holds a slot of a gate whose limit is below one. */
  ghost predicate Starved(s: State) {
    Valid(s) && s.outstanding == 0 && s.gate.limit < 1.0
  }

  lemma StepKeepsShut(s: State, step: Step)
    requires Starved(s) && !Reopens(s.gate) && Enabled(s, step)
    ensures !step.Acquire? && Starved(Next(s, step)) && !Reopens(Next(s, step).gate)
  {
    hide Backoff, Pause, UnderPressure;
  }

  lemma {:induction false} ShutForGood(s: State, steps: seq<Step>)
    requires Starved(s) && !Reopens(s.gate) && Runs(s, steps)
    ensures !Enabled(Exec(s, steps), Acquire)
    decreases |steps|
  {
    hide Starved, Reopens, Enabled, Next;
    if steps == [] {
      AcquireFails(s);
    } else {
      StepKeepsShut(s, steps[0]);
      ShutForGood(Next(s, steps[0]), steps[1..]);
    }
  }

  lemma AcquireFails(s: State)
    requires Starved(s)
    ensures !Enabled(s, Acquire)
  {
  }

  const HEALTHY := Probe(PoolStats(0.0, 1, 1, 0))
  const PRESSED := Probe(PoolStats(1.0, 0, 1, 0))

  /** Healthy probes alone take the limit to one, or as near the maximum as they can. */
  lemma {:induction false} Climb(s: State) returns (steps: seq<Step>)
    requires Valid(s) && s.outstanding == 0
    ensures Runs(s, steps)
    ensures var t := Exec(s, steps);
            && Valid(t) && t.outstanding == 0 && t.gate.min == s.gate.min && t.gate.max == s.gate.max
            && (t.gate.limit >= 1.0 || t.gate.limit >= s.gate.max - 0.05)
            && (s.gate.limit >= 1.0 || (s.gate.max >= 1.0 && Springs(s.gate.limit, s.gate.max)) ==> t.gate.limit >= 1.0)
    decreases ((1.0 - s.gate.limit) / 0.05).Floor
  {
    hide Valid;
    if s.gate.limit >= 1.0 || s.gate.limit >= s.gate.max - 0.05 {
      steps := [];
    } else {
      StepKeepsValid(s, HEALTHY);
      var rest := Climb(Next(s, HEALTHY));
      Prepend(s, HEALTHY, rest);
      steps := [HEALTHY] + rest;
    }
  }

  /** Once the limit is one, the gate admits when its window is over. */
  lemma OpensAfterWindow(s: State)
    requires Valid(s) && s.outstanding == 0 && s.gate.limit >= 1.0
    ensures CanAdmit(s)
  {
    var wait := Pass(MaxReal(s.gate.backoffUntil - s.now, 0.0));
    Prepend(s, wait, []);
    assert Enabled(Exec(s, [wait] + []), Acquire);
  }

  lemma {:induction false} CanAdmitLater(s: State, steps: seq<Step>)
    requires Runs(s, steps) && CanAdmit(Exec(s, steps))
    ensures CanAdmit(s)
  {
    var rest :| Runs(Exec(s, steps), rest) && Enabled(Exec(Exec(s, steps), rest), Acquire);
    RunsOfConcat(s, steps, rest);
  }

  lemma {:induction false} RunsOfConcat(s: State, a: seq<Step>, b: seq<Step>)
    requires Runs(s, a) && Runs(Exec(s, a), b)
    ensures Runs(s, a + b) && Exec(s, a + b) == Exec(Exec(s, a), b)
    decreases |a|
  {
    hide Enabled, Next;
    if a == [] {
      assert a + b == b;
    } else {
      assert (a + b)[1..] == a[1..] + b;
      RunsOfConcat(Next(s, a[0]), a[1..], b);
    }
  }

  lemma {:induction false} OneStep(s: State, step: Step)
    requires Enabled(s, step)
    ensures Runs(s, [step]) && Exec(s, [step]) == Next(s, step)
  {
    Prepend(s, step, []);
    assert [step] + [] == [step];
  }

  lemma ClimbsFrom(s: State)
    requires Valid(s) && s.outstanding == 0 && s.gate.max >= 1.0
    requires s.gate.limit >= 1.0 || Springs(s.gate.limit, s.gate.max)
    ensures CanAdmit(s)
  {
    hide Valid, Runs, Exec, CanAdmit;
    var steps := Climb(s);
    OpensAfterWindow(Exec(s, steps));
    CanAdmitLater(s, steps);
  }

  /** From a limit too near the maximum to be raised, one probe under pressure, and a
      healthy one if need be, reach a limit that springs. */
  lemma ReopensFromTop(s: State)
    requires Starved(s) && Reopens(s.gate) && s.gate.limit >= s.gate.max - 0.05
    ensures CanAdmit(s)
  {
    hide Runs, Exec, CanAdmit, Backoff, Pause;
    StepKeepsValid(s, PRESSED);
    var s1 := Next(s, PRESSED);
    OneStep(s, PRESSED);
    if Springs(s1.gate.limit, s.gate.max) {
      ClimbsFrom(s1);
    } else {
      StepKeepsValid(s1, HEALTHY);
      OneStep(s1, HEALTHY);
      ClimbsFrom(Next(s1, HEALTHY));
      CanAdmitLater(s1, [HEALTHY]);
    }
    CanAdmitLater(s, [PRESSED]);
  }

  lemma ReopensByProbes(s: State)
    requires Starved(s) && Reopens(s.gate)
    ensures CanAdmit(s)
  {
    if Springs(s.gate.limit, s.gate.max) {
      ClimbsFrom(s);
    } else {
      hide Runs, Exec, CanAdmit;
      var steps := Climb(s);
      var t := Exec(s, steps);
      if t.gate.limit >= 1.0 {
        OpensAfterWindow(t);
      } else {
        ReopensFromTop(t);
      }
      CanAdmitLater(s, steps);
    }
  }

  /** A gate that is shut below one, with no slots out, can ever admit again exactly when
      probes can raise its limit to one. With a maximum of 1.05 or more they always can. */
  lemma ReopensIff(s: State)
    requires Starved(s)
    ensures CanAdmit(s) <==> Reopens(s.gate)
    ensures s.gate.max >= 1.05 ==> Reopens(s.gate)
  {
    hide Runs, Exec;
    if Reopens(s.gate) {
      ReopensByProbes(s);
    } else {
      forall steps | Runs(s, steps)
        ensures !Enabled(Exec(s, steps), Acquire)
      {
        ShutForGood(s, steps);
      }
    }
  }

  /** Every slot can be released. */
  lemma {:induction false} ReleaseAll(s: State) returns (steps: seq<Step>)
    requires Valid(s)
    ensures Runs(s, steps) && Exec(s, steps).outstanding == 0
    ensures Valid(Exec(s, steps)) && Exec(s, steps).gate.min == s.gate.min && Exec(s, steps).gate.max == s.gate.max
    decreases s.outstanding
  {
    hide Valid;
    if s.outstanding == 0 {
      steps := [];
    } else {
      StepKeepsValid(s, Error);
      var rest := ReleaseAll(Next(s, Error));
      Prepend(s, Error, rest);
      steps := [Error] + rest;
    }
  }

  ghost predicate CanShutForGood(initial: real, min: real, max: real) {
    exists s :: Reachable(initial, min, max, s) && !CanAdmit(s)
  }

  /** The bounds for which a gate can come to a state from which it never admits anybody
      again: a maximum below one, or a minimum below one that is so near the maximum that
      probes step over the limits from which they could reach one. */
  lemma CanShutForGoodIff(initial: real, min: real, max: real)
    requires min <= max
    ensures CanShutForGood(initial, min, max) <==> max < 1.0 || max - 0.25 <= min < 0.8 || max - 0.05 <= min < 1.0
  {
    hide CanAdmit, Runs, Exec;
    var s0 := Start(initial, min, max);
    if CanShutForGood(initial, min, max) {
      var s :| Reachable(initial, min, max, s) && !CanAdmit(s);
      var before :| Runs(s0, before) && Exec(s0, before) == s;
      RunKeepsValid(s0, before);
      NotShutForGood(s);
    }
    if max < 1.0 || max - 0.25 <= min < 0.8 || max - 0.05 <= min < 1.0 {
      var steps := Starve(s0);
      RunKeepsValid(s0, steps);
      var s := Exec(s0, steps);
      StepKeepsValid(s, PRESSED);
      OneStep(s, PRESSED);
      RunsOfConcat(s0, steps, [PRESSED]);
      var t := Next(s, PRESSED);
      assert Reachable(initial, min, max, t);
      ReopensIff(t);
    }
  }

  lemma NotShutForGood(s: State)
    requires Valid(s) && !CanAdmit(s)
    ensures s.gate.max < 1.0 || s.gate.max - 0.25 <= s.gate.min < 0.8 || s.gate.max - 0.05 <= s.gate.min < 1.0
  {
    hide CanAdmit, Runs, Exec;
    var steps := ReleaseAll(s);
    var t := Exec(s, steps);
    if CanAdmit(t) {
      CanAdmitLater(s, steps);
    } else if t.gate.limit >= 1.0 {
      OpensAfterWindow(t);
    } else {
      ReopensIff(t);
    }
  }
}
