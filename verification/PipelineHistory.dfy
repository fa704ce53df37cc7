/** What the pipeline context remembers: at every loop head `results` and `_prev`
    are determined by the latest relevant events of the run so far. */
module PipelineHistory {
  import opened Base
  import opened Pipeline

  predicate SucceededAs(e: Event, name: string) {
    e.Succeeded? && e.task == name
  }

  /** Event `i` is the last success of the task `name`. */
  ghost predicate LatestSuccess(log: seq<Event>, i: int, name: string) {
    0 <= i < |log| && SucceededAs(log[i], name) &&
    forall j | i < j < |log| :: !SucceededAs(log[j], name)
  }

  predicate Threads(e: Event) {
    e.Succeeded? || e.SkippedWith?
  }

  /** Event `i` is the last one that sets the threaded value. */
  ghost predicate LatestThread(log: seq<Event>, i: int) {
    0 <= i < |log| && Threads(log[i]) && forall j | i < j < |log| :: !Threads(log[j])
  }

  ghost predicate History(ctx: Context, log: seq<Event>) {
    && (forall name, i | 0 <= i < |log| && SucceededAs(log[i], name) :: name in ctx.results)
    && (forall name | name in ctx.results ::
          exists i :: LatestSuccess(log, i, name) && log[i].value == ctx.results[name])
    && ((forall i | 0 <= i < |log| :: !Threads(log[i])) ==> ctx.prev == Null)
    && ((exists i | 0 <= i < |log| :: Threads(log[i])) ==>
          exists i :: LatestThread(log, i) && log[i].value == ctx.prev)
  }

  /** An event that sets nothing keeps the history; so does any change of the other
      context variables. */
  lemma FailureKeepsHistory(ctx: Context, ctx': Context, log: seq<Event>, e: Event)
    requires History(ctx, log) && e.FailedAttempt?
    requires ctx'.results == ctx.results && ctx'.prev == ctx.prev
    ensures History(ctx', log + [e])
  {
    var log' := log + [e];
    forall name | name in ctx'.results
      ensures exists i :: LatestSuccess(log', i, name) && log'[i].value == ctx'.results[name]
    {
      var i :| LatestSuccess(log, i, name) && log[i].value == ctx.results[name];
      assert LatestSuccess(log', i, name);
    }
    assert forall j | 0 <= j < |log| :: log'[j] == log[j];
    if i :| 0 <= i < |log'| && Threads(log'[i]) {
      assert Threads(log[i]);
      var k :| LatestThread(log, k) && log[k].value == ctx.prev;
      assert LatestThread(log', k);
    }
  }

  lemma SuccessKeepsHistory(ctx: Context, ctx': Context, log: seq<Event>, name: string, v: Value)
    requires History(ctx, log)
    requires ctx'.results == ctx.results[name := v] && ctx'.prev == v
    ensures History(ctx', log + [Succeeded(name, v)])
  {
    var log' := log + [Succeeded(name, v)];
    forall n | n in ctx'.results
      ensures exists i :: LatestSuccess(log', i, n) && log'[i].value == ctx'.results[n]
    {
      if n == name {
        assert LatestSuccess(log', |log|, n);
      } else {
        var i :| LatestSuccess(log, i, n) && log[i].value == ctx.results[n];
        assert LatestSuccess(log', i, n);
      }
    }
    assert LatestThread(log', |log|);
  }

  lemma SkipKeepsHistory(ctx: Context, ctx': Context, log: seq<Event>, v: Value)
    requires History(ctx, log)
    requires ctx'.results == ctx.results && ctx'.prev == v
    ensures History(ctx', log + [SkippedWith(v)])
  {
    var log' := log + [SkippedWith(v)];
    forall n | n in ctx'.results
      ensures exists i :: LatestSuccess(log', i, n) && log'[i].value == ctx'.results[n]
    {
      var i :| LatestSuccess(log, i, n) && log[i].value == ctx.results[n];
      assert LatestSuccess(log', i, n);
    }
    assert LatestThread(log', |log|);
  }

  /** The state a step leaves, whether or not the run goes on. */
  function After(n: Next): State {
    match n case More(s) => s case Halt(_, s) => s
  }

  /** No control action touches `results`, and only a skip with a value touches
      `_prev`. */
  lemma ControlKeepsHistory(p: Program, s: State, name: string, a: ControlAction)
    requires History(s.ctx, s.log)
    ensures var s' := After(Control(p, s, name, a)); History(s'.ctx, s'.log)
  {
    if a.action == Skip && a.setPrev != Null {
      SkipKeepsHistory(s.ctx, s.ctx.(prev := a.setPrev), s.log, a.setPrev);
    }
  }

  lemma StepKeepsHistory(p: Program, w: World, s: State)
    requires s.idx < |p.tasks| && History(s.ctx, s.log)
    ensures var s' := After(Step(p, w, s)); History(s'.ctx, s'.log)
  {
    hide Control, FindTask, CatchAction, RetryTarget, History;
    var t := p.tasks[s.idx];
    var outcome := CallOf(p, w, s);
    if Good(outcome) {
      SuccessKeepsHistory(s.ctx, UpdatedPrev(AtHead(s, t), t.name, outcome.value), s.log, t.name, outcome.value);
    } else {
      var s' := AfterFailure(p, w, s);
      FailureKeepsHistory(s.ctx, s'.ctx, s.log, s'.log[|s.log|]);
      ControlKeepsHistory(p, s', t.name, CatchAction(p.conds, w, s'.ctx));
    }
  }

  /** A failed end carries the last failure of the run: the error, and the task that
      raised it. */
  ghost predicate CarriesLastFailure(r: RunResult, log: seq<Event>) {
    r.Failed? ==>
      |log| > 0 && r.error.Some? && log[|log| - 1] == FailedAttempt(r.failedTask, r.error.value)
  }

  lemma HaltCarriesLastFailure(p: Program, w: World, s: State)
    requires s.idx < |p.tasks| && Step(p, w, s).Halt?
    ensures Step(p, w, s).result.Failed?
    ensures CarriesLastFailure(Step(p, w, s).result, Step(p, w, s).last.log)
    ensures Step(p, w, s).result.prev == Step(p, w, s).last.ctx.prev
    ensures Step(p, w, s).result.results == Step(p, w, s).last.ctx.results
  {
    hide CatchAction, FindTask, RetryTarget;
  }

  /** For every program, world and run: what the pipeline returns is its history.
      `results` maps exactly the tasks that ever succeeded to their latest results,
      `_prev` is the latest success or skip value, and a failure names the last error. */
  lemma {:induction false} RunReturnsHistory(p: Program, w: World, s: State, fuel: nat)
    requires History(s.ctx, s.log) && Run(p, w, s, fuel).Some?
    ensures var f := Run(p, w, s, fuel).value;
            && History(f.last.ctx, f.last.log)
            && f.result.results == f.last.ctx.results && f.result.prev == f.last.ctx.prev
            && CarriesLastFailure(f.result, f.last.log)
    decreases fuel
  {
    hide Step, History;
    if s.idx < |p.tasks| {
      StepKeepsHistory(p, w, s);
      if Step(p, w, s).More? {
        RunReturnsHistory(p, w, Step(p, w, s).state, fuel - 1);
      } else {
        HaltCarriesLastFailure(p, w, s);
      }
    }
  }

  /** The same from the start: every pipeline that halts reports its own history. */
  lemma {:induction false} PipelineReturnsHistory(p: Program, w: World, fuel: nat)
    requires Run(p, w, INIT, fuel).Some?
    ensures var f := Run(p, w, INIT, fuel).value;
            && History(f.last.ctx, f.last.log)
            && f.result.results == f.last.ctx.results && f.result.prev == f.last.ctx.prev
            && CarriesLastFailure(f.result, f.last.log)
  {
    RunReturnsHistory(p, w, INIT, fuel);
  }
}
