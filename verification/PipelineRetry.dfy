/** Retry is transparent: a pipeline whose catch block retries the failing task ends
    as if no call had failed, exactly when no task uses up its attempts. That is a law of
    the pipeline exactly when every name that may be retried is borne by one task. */
module PipelineRetry {
  import opened Base
  import opened Pipeline

  /** What a task computes when its call does not fail. */
  type Body = (Task, Value, map<string, Value>) -> Value

  /** Which calls fail, and with what error. */
  datatype Pattern = Pattern(fails: nat -> bool, error: nat -> Value)

  /** The attempts a task is allowed by the action that answers its failure: by task, by
      error, and by how often the task has failed before. */
  type Attempts = (string, Value, nat) -> nat

  /** No failure allows more than `cap` attempts. A catch block, being finite, has such a cap. */
  ghost predicate Capped(attempts: Attempts, cap: nat) {
    forall name, error, j :: attempts(name, error, j) <= cap
  }

  /** Calls outside the pattern return the task's value, whatever `_attempt` and `_err`
      are; calls inside it fail in any way. */
  ghost predicate Transient(w: World, x: Pattern, f: Body) {
    && (forall t, prev, results :: !IsErrorEnvelope(f(t, prev, results)))
    && (forall n: nat, t, ctx: Context ::
          if x.fails(n) then !Good(w.tool(n, t, ctx))
          else w.tool(n, t, ctx) == Returned(f(t, ctx.prev, ctx.results)))
  }

  /** A failed call in state `s` fails with the pattern's error, and is answered by a retry
      of the failing task, with the attempts that task has for that error by then. */
  ghost predicate Answered(p: Program, w: World, s: State, x: Pattern, attempts: Attempts)
    requires s.idx < |p.tasks|
  {
    var name := p.tasks[s.idx].name;
    var ctx := AfterFailure(p, w, s).ctx;
    var a := CatchAction(p.conds, w, ctx);
    && ctx.err == Some(x.error(s.calls))
    && a.action == Retry && RetryTarget(name, a) == name
    && (if a.attempts >= 0 then a.attempts else 0) == attempts(name, x.error(s.calls), CountOf(s.retries, name))
  }

  /** Every failure that occurs in the run is so answered. */
  ghost predicate RetriesItself(p: Program, w: World, x: Pattern, attempts: Attempts) {
    forall n: nat ::
      var s := Reached(p, w, n);
      s.Some? && s.value.idx < |p.tasks| && !Good(CallOf(p, w, s.value)) ==> Answered(p, w, s.value, x, attempts)
  }

  /** No name whose first failure, with any error, may be retried is shared. */
  ghost predicate RetrySafe(tasks: seq<Task>, attempts: Attempts) {
    forall i, j, error | 0 <= i < j < |tasks| && tasks[i].name == tasks[j].name ::
      attempts(tasks[i].name, error, 0) == 0
  }

  /** The failure-free meaning of tasks `k..n`: a left fold. */
  function Fold(tasks: seq<Task>, k: nat, n: nat, f: Body, prev: Value, results: map<string, Value>)
    : (Value, map<string, Value>)
    requires k <= n <= |tasks|
    decreases n - k
  {
    if k == n then (prev, results)
    else
      var v := f(tasks[k], prev, results);
      Fold(tasks, k + 1, n, f, v, results[tasks[k].name := v])
  }

  /** The calls before `c` that do not fail. */
  function Successes(x: Pattern, c: nat): nat {
    if c == 0 then 0 else Successes(x, c - 1) + (if x.fails(c - 1) then 0 else 1)
  }

  /** The failures in a row right before call `c`. */
  function Streak(x: Pattern, c: nat): nat {
    if c == 0 || !x.fails(c - 1) then 0 else Streak(x, c - 1) + 1
  }

  /** Call `c` fails when the task that is due has failed as often in a row as the error of
      this call allows. */
  predicate UsesUpAttempts(p: Program, x: Pattern, attempts: Attempts, c: nat) {
    var k := Successes(x, c);
    k < |p.tasks| && x.fails(c) && Streak(x, c) >= attempts(p.tasks[k].name, x.error(c), Streak(x, c))
  }

  ghost predicate Overrun(p: Program, x: Pattern, attempts: Attempts, from: nat) {
    exists c: nat :: from <= c && UsesUpAttempts(p, x, attempts, c)
  }

  lemma {:induction false} SuccessesGrow(x: Pattern, c: nat, d: nat)
    requires c <= d
    ensures Successes(x, c) <= Successes(x, d)
  {
    if c < d {
      SuccessesGrow(x, c, d - 1);
    }
  }

  /** How a run that is at call `c`, about to try task `k` after `j` failed attempts at
      it, ends: with all tasks done, or stuck at a task. */
  datatype Ending =
    | Done(prev: Value, results: map<string, Value>)
    | Stuck(k: nat, prev: Value, results: map<string, Value>)

  function EndingOf(p: Program, x: Pattern, f: Body, attempts: Attempts, cap: nat,
                    k: nat, j: nat, c: nat, prev: Value, results: map<string, Value>): Ending
    requires Capped(attempts, cap) && k <= |p.tasks| && j <= cap
    decreases |p.tasks| - k, cap - j
  {
    if k == |p.tasks| then Done(prev, results)
    else if !x.fails(c) then
      var v := f(p.tasks[k], prev, results);
      EndingOf(p, x, f, attempts, cap, k + 1, 0, c + 1, v, results[p.tasks[k].name := v])
    else if j >= attempts(p.tasks[k].name, x.error(c), j) then Stuck(k, prev, results)
    else
      assert attempts(p.tasks[k].name, x.error(c), j) <= cap;
      EndingOf(p, x, f, attempts, cap, k, j + 1, c + 1, prev, results)
  }

  /** The run's values are the fold of the tasks it completed. */
  lemma {:induction false} EndingIsFold(p: Program, x: Pattern, f: Body, attempts: Attempts, cap: nat,
                                        k: nat, j: nat, c: nat, prev: Value, results: map<string, Value>)
    requires Capped(attempts, cap) && k <= |p.tasks| && j <= cap
    ensures var e := EndingOf(p, x, f, attempts, cap, k, j, c, prev, results);
            var n := if e.Done? then |p.tasks| else e.k;
            && k <= n <= |p.tasks| && (e.Stuck? ==> n < |p.tasks|)
            && (e.prev, e.results) == Fold(p.tasks, k, n, f, prev, results)
    decreases |p.tasks| - k, cap - j
  {
    if k < |p.tasks| {
      if !x.fails(c) {
        var v := f(p.tasks[k], prev, results);
        EndingIsFold(p, x, f, attempts, cap, k + 1, 0, c + 1, v, results[p.tasks[k].name := v]);
      } else if j < attempts(p.tasks[k].name, x.error(c), j) {
        assert attempts(p.tasks[k].name, x.error(c), j) <= cap;
        EndingIsFold(p, x, f, attempts, cap, k, j + 1, c + 1, prev, results);
      }
    }
  }

  /** A run gets stuck exactly when some call from here on uses up a task's attempts. */
  lemma {:induction false} StuckIffOverrun(p: Program, x: Pattern, f: Body, attempts: Attempts, cap: nat,
                                           k: nat, j: nat, c: nat, prev: Value, results: map<string, Value>)
    requires Capped(attempts, cap) && k <= |p.tasks| && j <= cap
    requires Successes(x, c) == k && (k < |p.tasks| ==> Streak(x, c) == j)
    ensures EndingOf(p, x, f, attempts, cap, k, j, c, prev, results).Stuck? <==> Overrun(p, x, attempts, c)
    decreases |p.tasks| - k, cap - j
  {
    hide Capped, Successes, Streak;
    NextCall(x, c);
    if k == |p.tasks| {
      forall d: nat | c <= d
        ensures !UsesUpAttempts(p, x, attempts, d)
      {
        SuccessesGrow(x, c, d);
      }
    } else if x.fails(c) && j >= attempts(p.tasks[k].name, x.error(c), j) {
      assert UsesUpAttempts(p, x, attempts, c);
    } else {
      if !x.fails(c) {
        var v := f(p.tasks[k], prev, results);
        StuckIffOverrun(p, x, f, attempts, cap, k + 1, 0, c + 1, v, results[p.tasks[k].name := v]);
      } else {
        CapHolds(attempts, cap, p.tasks[k].name, x.error(c), j);
        StuckIffOverrun(p, x, f, attempts, cap, k, j + 1, c + 1, prev, results);
      }
      OverrunLater(p, x, attempts, c);
    }
  }

  lemma NextCall(x: Pattern, c: nat)
    ensures Successes(x, c + 1) == Successes(x, c) + (if x.fails(c) then 0 else 1)
    ensures Streak(x, c + 1) == if x.fails(c) then Streak(x, c) + 1 else 0
  {
  }

  lemma CapHolds(attempts: Attempts, cap: nat, name: string, error: Value, j: nat)
    requires Capped(attempts, cap)
    ensures attempts(name, error, j) <= cap
  {
  }

  lemma OverrunLater(p: Program, x: Pattern, attempts: Attempts, c: nat)
    requires !UsesUpAttempts(p, x, attempts, c)
    ensures Overrun(p, x, attempts, c) <==> Overrun(p, x, attempts, c + 1)
  {
    hide UsesUpAttempts;
    if d: nat :| c <= d && UsesUpAttempts(p, x, attempts, d) {
      assert c + 1 <= d;
    }
  }

  /** The result a run must give for an ending. */
  ghost predicate Gives(p: Program, e: Ending, r: RunResult) {
    match e
    case Done(prev, results) => r == Success(prev, results)
    case Stuck(k, prev, results) =>
      r.Failed? && r.prev == prev && r.results == results &&
      k < |p.tasks| && r.failedTask == p.tasks[k].name
  }

  /** Task `s.idx` has failed `j` times, under a name of its own if it has, and the later
      tasks never ran. */
  ghost predicate Fresh(p: Program, s: State, j: nat) {
    && s.idx <= |p.tasks|
    && (s.idx < |p.tasks| ==> CountOf(s.retries, p.tasks[s.idx].name) == j)
    && (forall i | s.idx < i < |p.tasks| :: CountOf(s.retries, p.tasks[i].name) == 0)
    && (s.idx < |p.tasks| && j > 0 ==> Unshared(p.tasks, s.idx))
  }

  predicate Unshared(tasks: seq<Task>, k: nat)
    requires k < |tasks|
  {
    forall i | 0 <= i < |tasks| && i != k :: tasks[i].name != tasks[k].name
  }

  lemma RetriedIsUnshared(tasks: seq<Task>, attempts: Attempts, k: nat, error: Value)
    requires RetrySafe(tasks, attempts) && k < |tasks| && attempts(tasks[k].name, error, 0) > 0
    ensures Unshared(tasks, k)
  {
  }

  lemma {:induction false} FailingStep(p: Program, w: World, x: Pattern, attempts: Attempts, s: State, j: nat)
    requires RetrySafe(p.tasks, attempts) && RetriesItself(p, w, x, attempts) && Reached(p, w, s.calls) == Some(s)
    requires Fresh(p, s, j) && s.idx < |p.tasks| && !Good(CallOf(p, w, s))
    ensures var n := Step(p, w, s);
            if j >= attempts(p.tasks[s.idx].name, x.error(s.calls), j) then
              n.Halt? && Gives(p, Stuck(s.idx, s.ctx.prev, s.ctx.results), n.result)
            else
              && n.More? && Fresh(p, n.state, j + 1) && n.state.idx == s.idx && n.state.calls == s.calls + 1
              && n.state.ctx.prev == s.ctx.prev && n.state.ctx.results == s.ctx.results
  {
    hide CatchAction, RetryTarget, FindTask;
    var name, error := p.tasks[s.idx].name, x.error(s.calls);
    assert Answered(p, w, s, x, attempts);
    if j < attempts(name, error, j) {
      if j == 0 {
        RetriedIsUnshared(p.tasks, attempts, s.idx, error);
      }
      FindsFirstTask(p.tasks, s.idx);
    }
  }

  lemma SucceedingStep(p: Program, w: World, x: Pattern, f: Body, s: State, j: nat)
    requires Transient(w, x, f)
    requires Fresh(p, s, j) && s.idx < |p.tasks| && !x.fails(s.calls)
    ensures var n := Step(p, w, s);
            var v := f(p.tasks[s.idx], s.ctx.prev, s.ctx.results);
            && n.More? && Fresh(p, n.state, 0) && n.state.idx == s.idx + 1 && n.state.calls == s.calls + 1
            && n.state.ctx.prev == v && n.state.ctx.results == s.ctx.results[p.tasks[s.idx].name := v]
  {
    assert CallOf(p, w, s) == Returned(f(p.tasks[s.idx], s.ctx.prev, s.ctx.results));
  }

  lemma {:induction false} RunGivesEnding(p: Program, w: World, x: Pattern, f: Body,
                                          attempts: Attempts, cap: nat, s: State, j: nat)
    returns (fuel: nat)
    requires RetrySafe(p.tasks, attempts) && Transient(w, x, f) && Capped(attempts, cap)
    requires RetriesItself(p, w, x, attempts) && Reached(p, w, s.calls) == Some(s)
    requires Fresh(p, s, j) && j <= cap
    ensures Run(p, w, s, fuel).Some? && s.idx <= |p.tasks|
    ensures Gives(p, EndingOf(p, x, f, attempts, cap, s.idx, j, s.calls, s.ctx.prev, s.ctx.results),
                  Run(p, w, s, fuel).value.result)
    decreases |p.tasks| - s.idx, cap - j
  {
    hide Step, Transient, RetriesItself, RetrySafe, Fresh, Capped;
    SizeOfFresh(p, s, j);
    if s.idx == |p.tasks| {
      fuel := 0;
    } else if !x.fails(s.calls) {
      SucceedingStep(p, w, x, f, s, j);
      var rest := RunGivesEnding(p, w, x, f, attempts, cap, Step(p, w, s).state, 0);
      fuel := rest + 1;
    } else {
      CallFails(p, w, x, f, s);
      FailingStep(p, w, x, attempts, s, j);
      CapHolds(attempts, cap, p.tasks[s.idx].name, x.error(s.calls), j);
      if j >= attempts(p.tasks[s.idx].name, x.error(s.calls), j) {
        fuel := 1;
      } else {
        var rest := RunGivesEnding(p, w, x, f, attempts, cap, Step(p, w, s).state, j + 1);
        fuel := rest + 1;
      }
    }
  }

  lemma CallFails(p: Program, w: World, x: Pattern, f: Body, s: State)
    requires Transient(w, x, f) && s.idx < |p.tasks| && x.fails(s.calls)
    ensures !Good(CallOf(p, w, s))
  {
  }

  lemma SizeOfFresh(p: Program, s: State, j: nat)
    requires Fresh(p, s, j)
    ensures s.idx <= |p.tasks|
  {
  }

  /** The law of retry: the pipeline halts; it succeeds if no task uses up its attempts,
      and then its status, `_prev` and results are those of the failure-free fold.
      Otherwise it fails, with the fold of the tasks before the one it reports. */
  ghost predicate Law(p: Program, w: World, x: Pattern, f: Body, attempts: Attempts) {
    exists fuel: nat ::
      && Run(p, w, INIT, fuel).Some?
      && var r := Run(p, w, INIT, fuel).value.result;
         if Overrun(p, x, attempts, 0) then
           r.Failed? && exists k :: 0 <= k < |p.tasks| && r.failedTask == p.tasks[k].name &&
                                    (r.prev, r.results) == Fold(p.tasks, 0, k, f, Null, map[])
         else
           var whole := Fold(p.tasks, 0, |p.tasks|, f, Null, map[]);
           r == Success(whole.0, whole.1)
  }

  /** The law holds under any failure pattern. */
  lemma TransparentRetry(p: Program, w: World, x: Pattern, f: Body, attempts: Attempts, cap: nat)
    requires Capped(attempts, cap) && RetrySafe(p.tasks, attempts)
    requires Transient(w, x, f) && RetriesItself(p, w, x, attempts)
    ensures Law(p, w, x, f, attempts)
  {
    hide Transient, RetriesItself, RetrySafe, Run, EndingOf, Overrun, Capped;
    var fuel := RunGivesEnding(p, w, x, f, attempts, cap, INIT, 0);
    EndingIsFold(p, x, f, attempts, cap, 0, 0, 0, Null, map[]);
    StuckIffOverrun(p, x, f, attempts, cap, 0, 0, 0, Null, map[]);
  }

  // ---------------------------------------------------------------------------
  // Shared names: the retry counter and the retry target are by name, so a failing task
  // that may be retried restarts the pipeline at the first task that shares its name.

  /** A body that counts how many tasks were threaded. */
  function CountUp(t: Task, prev: Value, results: map<string, Value>): Value {
    Num(if prev.Num? then prev.n + 1 else 1)
  }

  function OnlyAt(bad: nat, error: Value): Pattern {
    Pattern(c => c == bad, c => error)
  }

  function Tally(m: nat): Value {
    if m == 0 then Null else Num(m)
  }

  lemma {:induction false} FoldTally(tasks: seq<Task>, k: nat, m: nat, results: map<string, Value>)
    requires k <= |tasks|
    ensures Fold(tasks, k, |tasks|, CountUp, Tally(m), results).0 == Tally(m + |tasks| - k)
    decreases |tasks| - k
  {
    if k < |tasks| {
      FoldTally(tasks, k + 1, m + 1, results[tasks[k].name := Tally(m + 1)]);
    }
  }

  lemma CleanStepTally(p: Program, w: World, bad: nat, error: Value, s: State, m: nat)
    requires Transient(w, OnlyAt(bad, error), CountUp) && s.calls != bad
    requires s.idx < |p.tasks| && s.ctx.prev == Tally(m)
    ensures var n := Step(p, w, s);
            && n.More? && n.state.idx == s.idx + 1 && n.state.calls == s.calls + 1
            && n.state.retries == s.retries && n.state.ctx.prev == Tally(m + 1)
  {
    assert CallOf(p, w, s) == Returned(Tally(m + 1));
  }

  /** A run that is past its only failing call. */
  lemma {:induction false} CleanRunTally(p: Program, w: World, bad: nat, error: Value, s: State, m: nat)
    requires Transient(w, OnlyAt(bad, error), CountUp) && s.calls > bad
    requires s.idx <= |p.tasks| && s.ctx.prev == Tally(m)
    ensures var r := Run(p, w, s, |p.tasks| - s.idx);
            r.Some? && r.value.result.Success? && r.value.result.prev == Tally(m + |p.tasks| - s.idx)
    decreases |p.tasks| - s.idx
  {
    hide Step, Transient;
    if s.idx < |p.tasks| {
      CleanStepTally(p, w, bad, error, s, m);
      CleanRunTally(p, w, bad, error, Step(p, w, s).state, m + 1);
    }
  }

  /** The failing call restarts the pipeline at `first`. */
  lemma {:induction false} FailureRestarts(p: Program, w: World, attempts: Attempts, first: nat, bad: nat,
                                           error: Value, s: State)
    requires bad < |p.tasks| && FindTask(p.tasks, p.tasks[bad].name) == Some(first)
    requires attempts(p.tasks[bad].name, error, 0) >= 1
    requires Transient(w, OnlyAt(bad, error), CountUp) && RetriesItself(p, w, OnlyAt(bad, error), attempts)
    requires s.idx == s.calls == bad && s.retries == map[] && Reached(p, w, s.calls) == Some(s)
    ensures var n := Step(p, w, s);
            n.More? && n.state.idx == first && n.state.calls == bad + 1 && n.state.ctx.prev == s.ctx.prev
  {
    hide CatchAction, FindTask, RetryTarget, CountUp;
    assert !Good(CallOf(p, w, s));
    assert Answered(p, w, s, OnlyAt(bad, error), attempts);
  }

  lemma {:induction false} RunUpToFailure(p: Program, w: World, attempts: Attempts, first: nat, bad: nat,
                                          error: Value, s: State)
    requires bad < |p.tasks| && FindTask(p.tasks, p.tasks[bad].name) == Some(first)
    requires attempts(p.tasks[bad].name, error, 0) >= 1
    requires Transient(w, OnlyAt(bad, error), CountUp) && RetriesItself(p, w, OnlyAt(bad, error), attempts)
    requires s.idx == s.calls <= bad && s.retries == map[] && s.ctx.prev == Tally(s.idx)
    requires Reached(p, w, s.calls) == Some(s)
    ensures var r := Run(p, w, s, bad - s.idx + 1 + |p.tasks| - first);
            r.Some? && r.value.result.Success? && r.value.result.prev == Tally(bad + |p.tasks| - first)
    decreases bad - s.idx
  {
    hide Step, Transient, RetriesItself, FindTask;
    if s.idx < bad {
      CleanStepTally(p, w, bad, error, s, s.idx);
      RunUpToFailure(p, w, attempts, first, bad, error, Step(p, w, s).state);
    } else {
      FailureRestarts(p, w, attempts, first, bad, error, s);
      CleanRunTally(p, w, bad, error, Step(p, w, s).state, bad);
    }
  }

  /** With such a name, one failure within the allowed attempts already makes the run
      differ from the failure-free fold: it succeeds, having run the tasks between the two
      once more. */
  lemma {:induction false} SharedNameBreaksRetry(p: Program, w: World, attempts: Attempts, i: nat, bad: nat,
                                                 error: Value)
    requires i < bad < |p.tasks| && p.tasks[i].name == p.tasks[bad].name
    requires attempts(p.tasks[bad].name, error, 0) >= 1
    requires Transient(w, OnlyAt(bad, error), CountUp) && RetriesItself(p, w, OnlyAt(bad, error), attempts)
    ensures !Overrun(p, OnlyAt(bad, error), attempts, 0) && !Law(p, w, OnlyAt(bad, error), CountUp, attempts)
    ensures exists n: nat ::
              var r := Run(p, w, INIT, n);
              r.Some? && r.value.result.Success? &&
              r.value.result.prev != Fold(p.tasks, 0, |p.tasks|, CountUp, Null, map[]).0
  {
    hide FindTask, CatchAction, Run, Fold, Transient, RetriesItself;
    FindsEarlier(p.tasks, i, p.tasks[bad].name);
    var first := FindTask(p.tasks, p.tasks[bad].name).value;
    var n := bad + 1 + |p.tasks| - first;
    RunUpToFailure(p, w, attempts, first, bad, error, INIT);
    FoldTally(p.tasks, 0, 0, map[]);
    OneFailure(bad, error, bad);
    assert !Overrun(p, OnlyAt(bad, error), attempts, 0);
    forall fuel: nat | Run(p, w, INIT, fuel).Some?
      ensures Run(p, w, INIT, fuel) == Run(p, w, INIT, n)
    {
      if fuel <= n {
        RunMore(p, w, INIT, fuel, n - fuel);
      } else {
        RunMore(p, w, INIT, n, fuel - n);
      }
    }
  }

  lemma {:induction false} OneFailure(bad: nat, error: Value, c: nat)
    requires c <= bad
    ensures Successes(OnlyAt(bad, error), c) == c && Streak(OnlyAt(bad, error), c) == 0
  {
    if c > 0 {
      OneFailure(bad, error, c - 1);
    }
  }

  lemma {:induction false} FindsEarlier(tasks: seq<Task>, i: nat, name: string)
    requires i < |tasks| && tasks[i].name == name
    ensures FindTask(tasks, name).Some? && FindTask(tasks, name).value <= i
  {
    if i > 0 && tasks[0].name != name {
      FindsEarlier(tasks[1..], i - 1, name);
    }
  }

  // ---------------------------------------------------------------------------
  // Exactly when the law holds

  /** A catch block that retries each task by name, with the attempts it has when it first
      fails with `error`. */
  function RetryEach(tasks: seq<Task>, attempts: Attempts, error: Value): seq<Cond> {
    seq(|tasks|, k requires 0 <= k < |tasks| =>
          When(tasks[k].name,
               ActionSpec(Some("retry"), None, None, None, Some(attempts(tasks[k].name, error, 0)), Null)))
  }

  /** Call `bad` raises, the others count; a condition is the name of a task. */
  function FailsOnce(bad: nat, error: Value): World {
    World((n, t, ctx: Context) => if n == bad then Raised(Null) else Returned(CountUp(t, ctx.prev, ctx.results)),
          (expr, ctx: Context) => Some(if expr == ctx.task then "true" else ""),
          (name, outcome) => error)
  }

  lemma {:induction false} RetryEachAnswers(tasks: seq<Task>, attempts: Attempts, error: Value, k: nat,
                                            w: World, ctx: Context)
    requires k < |tasks| && ctx.task == tasks[k].name
    requires forall expr :: w.render(expr, ctx) == Some(if expr == ctx.task then "true" else "")
    ensures var a := CatchAction(RetryEach(tasks, attempts, error), w, ctx);
            a.action == Retry && RetryTarget(ctx.task, a) == ctx.task && a.attempts == attempts(ctx.task, error, 0)
  {
    var conds := RetryEach(tasks, attempts, error);
    assert Lower("true") == "true";
    if tasks[0].name != ctx.task {
      assert conds[1..] == RetryEach(tasks[1..], attempts, error);
      RetryEachAnswers(tasks[1..], attempts, error, k - 1, w, ctx);
    }
  }

  lemma FailsOnceRetries(tasks: seq<Task>, attempts: Attempts, bad: nat, error: Value)
    ensures Transient(FailsOnce(bad, error), OnlyAt(bad, error), CountUp)
    ensures RetriesItself(Program(tasks, RetryEach(tasks, attempts, error)), FailsOnce(bad, error),
                          OnlyAt(bad, error), attempts)
  {
    hide CatchAction, RetryTarget, RetryEach, Reached;
    var p, w := Program(tasks, RetryEach(tasks, attempts, error)), FailsOnce(bad, error);
    forall n: nat | Reached(p, w, n).Some? && Reached(p, w, n).value.idx < |tasks|
                    && !Good(CallOf(p, w, Reached(p, w, n).value))
      ensures Answered(p, w, Reached(p, w, n).value, OnlyAt(bad, error), attempts)
    {
      var s := Reached(p, w, n).value;
      NoRetryBefore(p, bad, error, n);
      OthersSucceed(p, bad, error, s);
      RetryEachAnswers(tasks, attempts, error, s.idx, w, AfterFailure(p, w, s).ctx);
    }
  }

  lemma FailsOnceStep(p: Program, bad: nat, error: Value, s: State)
    requires s.idx < |p.tasks| && Step(p, FailsOnce(bad, error), s).More?
    ensures var t := Step(p, FailsOnce(bad, error), s).state;
            t.calls == s.calls + 1 && (s.calls != bad ==> t.retries == s.retries)
  {
    hide CatchAction, RetryTarget, FindTask;
    OthersSucceed(p, bad, error, s);
  }

  lemma OthersSucceed(p: Program, bad: nat, error: Value, s: State)
    requires s.idx < |p.tasks|
    ensures s.calls != bad ==> Good(CallOf(p, FailsOnce(bad, error), s))
  {
    if s.calls != bad {
      assert CallOf(p, FailsOnce(bad, error), s) == Returned(CountUp(p.tasks[s.idx], s.ctx.prev, s.ctx.results));
    }
  }

  lemma {:induction false} NoRetryBefore(p: Program, bad: nat, error: Value, n: nat)
    ensures var s := Reached(p, FailsOnce(bad, error), n);
            s.Some? ==> s.value.calls == n && (n <= bad ==> s.value.retries == map[])
  {
    hide Step;
    if n > 0 {
      NoRetryBefore(p, bad, error, n - 1);
      if Reached(p, FailsOnce(bad, error), n).Some? {
        FailsOnceStep(p, bad, error, Reached(p, FailsOnce(bad, error), n - 1).value);
      }
    }
  }

  /** For a list of tasks and the attempts they are allowed: the law holds for every catch
      block, every world, every failure pattern and all values the tasks compute, provided
      each failure that occurs is answered by a retry, exactly when no name whose first
      failure may be retried is shared. */
  lemma TransparentIff(tasks: seq<Task>, attempts: Attempts, cap: nat)
    requires Capped(attempts, cap)
    ensures RetrySafe(tasks, attempts) <==>
            forall conds, w, x, f ::
              Transient(w, x, f) && RetriesItself(Program(tasks, conds), w, x, attempts) ==>
                Law(Program(tasks, conds), w, x, f, attempts)
  {
    hide Transient, RetriesItself, Law, Capped;
    if RetrySafe(tasks, attempts) {
      hide RetrySafe;
      forall conds, w, x, f | Transient(w, x, f) && RetriesItself(Program(tasks, conds), w, x, attempts)
        ensures Law(Program(tasks, conds), w, x, f, attempts)
      {
        TransparentRetry(Program(tasks, conds), w, x, f, attempts, cap);
      }
    } else {
      var i, bad, error :| 0 <= i < bad < |tasks| && tasks[i].name == tasks[bad].name
                           && attempts(tasks[i].name, error, 0) != 0;
      FailsOnceRetries(tasks, attempts, bad, error);
      SharedNameBreaksRetry(Program(tasks, RetryEach(tasks, attempts, error)), FailsOnce(bad, error),
                            attempts, i, bad, error);
    }
  }
}
