/** When a pipeline run ends. */
module PipelineTermination {
  import opened Base
  import opened Pipeline

  /** The jumps and retries the catch block can order at a failure of a task. */
  ghost predicate Disciplined(p: Program, w: World, maxAttempts: nat) {
    forall i, ctx: Context | 0 <= i < |p.tasks| && ctx.task == p.tasks[i].name ::
      var a := CatchAction(p.conds, w, ctx);
      && (a.action == Retry ==> a.attempts <= maxAttempts)
      && (a.action == Jump && Truthy(a.to) ==>
            var at := FindTask(p.tasks, a.to.value); at.Some? ==> at.value > i)
  }

  /** The retries the first `k` tasks may still order, at `cap` for each. */
  function Budget(tasks: seq<Task>, k: nat, retries: map<string, nat>, cap: nat): (b: nat)
    requires k <= |tasks|
    ensures b <= k * cap
  {
    if k == 0 then 0
    else
      var used := CountOf(retries, tasks[k - 1].name);
      Budget(tasks, k - 1, retries, cap) + (if used <= cap then cap - used else 0)
  }

  /** Counting one more retry of a task among the first `k` shrinks the budget. */
  lemma {:induction false} BudgetShrinks(tasks: seq<Task>, k: nat, retries: map<string, nat>, cap: nat, target: string)
    requires k <= |tasks| && CountOf(retries, target) < cap
    ensures var retries' := retries[target := CountOf(retries, target) + 1];
            && Budget(tasks, k, retries', cap) <= Budget(tasks, k, retries, cap)
            && ((exists i | 0 <= i < k :: tasks[i].name == target) ==>
                  Budget(tasks, k, retries', cap) < Budget(tasks, k, retries, cap))
  {
    if k > 0 {
      BudgetShrinks(tasks, k - 1, retries, cap, target);
    }
  }

  /** Calls the run can still make: a full pass for each retry left, and the rest of
      this pass. */
  function Measure(p: Program, s: State, cap: nat): int {
    Budget(p.tasks, |p.tasks|, s.retries, cap) * |p.tasks| + (|p.tasks| - s.idx)
  }

  lemma PassFits(b': nat, b: nat, n: nat, idx': nat)
    requires b' < b
    ensures b' * n + (n - idx') <= b * n
  {
    assert b' * n <= (b - 1) * n;
  }

  /** A retry pays for the pass it restarts. */
  lemma RetryShrinksMeasure(p: Program, s: State, name: string, a: ControlAction, cap: nat)
    requires s.idx < |p.tasks| && a.action == Retry && a.attempts <= cap
    requires Control(p, s, name, a).More?
    ensures var s' := Control(p, s, name, a).state;
            s'.idx <= |p.tasks| && Measure(p, s', cap) < Measure(p, s, cap)
  {
    hide Budget, RetryTarget;
    var target := RetryTarget(name, a);
    var s' := Control(p, s, name, a).state;
    BudgetShrinks(p.tasks, |p.tasks|, s.retries, cap, target);
    assert p.tasks[s'.idx].name == target;
    PassFits(Budget(p.tasks, |p.tasks|, s'.retries, cap), Budget(p.tasks, |p.tasks|, s.retries, cap),
             |p.tasks|, s'.idx);
  }

  lemma StepShrinksMeasure(p: Program, w: World, s: State, cap: nat)
    requires s.idx < |p.tasks| && Disciplined(p, w, cap) && Step(p, w, s).More?
    ensures var s' := Step(p, w, s).state;
            s'.idx <= |p.tasks| && Measure(p, s', cap) < Measure(p, s, cap)
  {
    hide CatchAction, FindTask, Budget;
    var t := p.tasks[s.idx];
    if !Good(CallOf(p, w, s)) {
      var f := AfterFailure(p, w, s);
      var a := CatchAction(p.conds, w, f.ctx);
      assert f.ctx.task == p.tasks[s.idx].name;
      if a.action == Retry {
        RetryShrinksMeasure(p, f, t.name, a, cap);
      }
    }
  }

  lemma {:induction false} RunEndsWithinMeasure(p: Program, w: World, s: State, cap: nat, fuel: nat)
    requires s.idx <= |p.tasks| && Disciplined(p, w, cap) && fuel >= Measure(p, s, cap)
    ensures Run(p, w, s, fuel).Some?
    decreases fuel
  {
    hide Step, Disciplined, Budget;
    if s.idx < |p.tasks| && Step(p, w, s).More? {
      StepShrinksMeasure(p, w, s, cap);
      RunEndsWithinMeasure(p, w, Step(p, w, s).state, cap, fuel - 1);
    }
  }

  /** If every jump goes to a later task and no retry action allows more than
      `cap` attempts, the pipeline halts, within (n * cap + 1) * n tool calls. */
  lemma {:induction false} PipelineHalts(p: Program, w: World, cap: nat)
    requires Disciplined(p, w, cap)
    ensures Run(p, w, INIT, (|p.tasks| * cap + 1) * |p.tasks|).Some?
    ensures Halts(p, w)
  {
    hide Disciplined, Run;
    var n := |p.tasks|;
    var b := Budget(p.tasks, n, INIT.retries, cap);
    assert b <= n * cap;
    assert b * n <= (n * cap) * n;
    assert (n * cap + 1) * n == (n * cap) * n + n;
    RunEndsWithinMeasure(p, w, INIT, cap, (n * cap + 1) * n);
  }

  // ---------------------------------------------------------------------------
  // Which catch blocks let every run end

  /** Some world makes this the first deciding condition. */
  predicate Live(conds: seq<Cond>, c: nat): (live: bool)
    ensures live ==> c < |conds| && !conds[c].Ignored?
  {
    && c < |conds| && !conds[c].Ignored?
    && forall j | 0 <= j < c :: !conds[j].Else? && (conds[j].When? && conds[c].When? ==> conds[j].expr != conds[c].expr)
  }

  /** A condition that can order a jump to a task there is. */
  predicate CanJump(tasks: seq<Task>, conds: seq<Cond>, c: nat): (can: bool)
    ensures can ==> c < |conds| && tasks != []
  {
    && Live(conds, c) && conds[c].spec.do == Some("jump")
    && Truthy(conds[c].spec.to) && FindTask(tasks, conds[c].spec.to.value).Some?
  }

  /** The most attempts any action of the block allows. */
  function MaxAttempts(conds: seq<Cond>): nat {
    if conds == [] then 0
    else
      var rest := MaxAttempts(conds[..|conds| - 1]);
      var last := conds[|conds| - 1];
      if !last.Ignored? && ParseAction(last.spec).attempts > rest then ParseAction(last.spec).attempts else rest
  }

  lemma {:induction false} AttemptsBounded(conds: seq<Cond>, c: nat)
    requires c < |conds| && !conds[c].Ignored?
    ensures ParseAction(conds[c].spec).attempts <= MaxAttempts(conds)
  {
    if c < |conds| - 1 {
      AttemptsBounded(conds[..|conds| - 1], c);
    }
  }

  lemma {:induction false} FirstDeciding(conds: seq<Cond>, w: World, ctx: Context, i: nat) returns (c: nat)
    requires i <= |conds| && forall j | 0 <= j < i :: !Decides(conds[j], w, ctx)
    ensures c <= |conds| && forall j | 0 <= j < c :: !Decides(conds[j], w, ctx)
    ensures c < |conds| ==> Decides(conds[c], w, ctx)
    decreases |conds| - i
  {
    if i < |conds| && !Decides(conds[i], w, ctx) {
      c := FirstDeciding(conds, w, ctx, i + 1);
    } else {
      c := i;
    }
  }

  /** The catch action is always that of a live condition, or `fail`. */
  lemma {:induction false} CatchIsLive(conds: seq<Cond>, w: World, ctx: Context)
    ensures var a := CatchAction(conds, w, ctx);
            a == FAIL_ACTION ||
            exists c: nat :: Live(conds, c) && a == ParseAction(conds[c].spec) && a.attempts <= MaxAttempts(conds)
  {
    hide ParseAction, Affirmative;
    var c := FirstDeciding(conds, w, ctx, 0);
    FirstDecidingCondition(conds, w, ctx, c);
    if c < |conds| {
      AttemptsBounded(conds, c);
      assert Live(conds, c);
    }
  }

  lemma {:induction false} NoJumpIsDisciplined(tasks: seq<Task>, conds: seq<Cond>, w: World)
    requires forall c: nat :: !CanJump(tasks, conds, c)
    ensures Disciplined(Program(tasks, conds), w, MaxAttempts(conds))
  {
    hide Live, MaxAttempts, FindTask;
    forall i, ctx: Context | 0 <= i < |tasks| && ctx.task == tasks[i].name
      ensures var a := CatchAction(conds, w, ctx);
              (a.action == Retry ==> a.attempts <= MaxAttempts(conds)) &&
              (a.action == Jump && Truthy(a.to) ==> FindTask(tasks, a.to.value).None?)
    {
      hide CatchAction;
      CatchIsLive(conds, w, ctx);
      if c: nat :| Live(conds, c) && CatchAction(conds, w, ctx) == ParseAction(conds[c].spec) {
        assert !CanJump(tasks, conds, c);
      }
    }
  }

  /** The world in which every call raises and only one condition holds. */
  function AlwaysRaises(cond: Cond): World {
    World((n, t, ctx) => Raised(Null),
          (expr, ctx) => Some(if cond.When? && expr == cond.expr then "true" else ""),
          (name, outcome) => Null)
  }

  lemma {:induction false} LiveDecides(conds: seq<Cond>, c: nat, ctx: Context)
    requires Live(conds, c)
    ensures CatchAction(conds, AlwaysRaises(conds[c]), ctx) == ParseAction(conds[c].spec)
  {
    hide CatchAction;
    assert Lower("true") == "true" && Lower("") == "";
    FirstDecidingCondition(conds, AlwaysRaises(conds[c]), ctx, c);
  }

  /** There the pipeline jumps to the same task again and again. */
  lemma {:induction false} JumpsForever(tasks: seq<Task>, conds: seq<Cond>, c: nat, s: State, fuel: nat)
    requires CanJump(tasks, conds, c) && s.idx < |tasks|
    ensures Run(Program(tasks, conds), AlwaysRaises(conds[c]), s, fuel).None?
    decreases fuel
  {
    hide Live, CatchAction, FindTask;
    var p, w := Program(tasks, conds), AlwaysRaises(conds[c]);
    if fuel > 0 {
      LiveDecides(conds, c, AfterFailure(p, w, s).ctx);
      JumpsForever(tasks, conds, c, Step(p, w, s).state, fuel - 1);
    }
  }

  /** For a task list and a catch block: the pipeline halts in every world, exactly when
      no live condition orders a jump to a task of the list. Retries, however many attempts
      they allow, never keep it from halting. */
  lemma AlwaysHaltsIff(tasks: seq<Task>, conds: seq<Cond>)
    ensures (forall w :: Halts(Program(tasks, conds), w)) <==> forall c: nat :: !CanJump(tasks, conds, c)
  {
    hide CanJump, Disciplined, Run;
    if c: nat :| CanJump(tasks, conds, c) {
      forall n: nat
        ensures Run(Program(tasks, conds), AlwaysRaises(conds[c]), INIT, n).None?
      {
        JumpsForever(tasks, conds, c, INIT, n);
      }
      assert !Halts(Program(tasks, conds), AlwaysRaises(conds[c]));
    } else {
      forall w
        ensures Halts(Program(tasks, conds), w)
      {
        NoJumpIsDisciplined(tasks, conds, w);
        PipelineHalts(Program(tasks, conds), w, MaxAttempts(conds));
      }
    }
  }

  // ---------------------------------------------------------------------------
  // Conditions that look at the failed task only

  type Renderer = (string, Context) -> Option<string>

  /** The conditions see nothing but which task failed. */
  ghost predicate SeesTaskOnly(render: Renderer) {
    forall expr, x: Context, y: Context | x.task == y.task :: render(expr, x) == render(expr, y)
  }

  lemma {:induction false} SameTaskSameAction(conds: seq<Cond>, v: World, w: World, x: Context, y: Context)
    requires v.render == w.render && SeesTaskOnly(v.render) && x.task == y.task
    ensures CatchAction(conds, v, x) == CatchAction(conds, w, y)
  {
    hide SeesTaskOnly, Affirmative;
    if conds != [] {
      SameRendering(conds[0], v, w, x, y);
      SameTaskSameAction(conds[1..], v, w, x, y);
    }
  }

  lemma SameRendering(c: Cond, v: World, w: World, x: Context, y: Context)
    requires v.render == w.render && SeesTaskOnly(v.render) && x.task == y.task
    ensures Decides(c, v, x) == Decides(c, w, y)
  {
  }

  /** Where the catch block sends the run when task `i` fails, if it jumps to a task. */
  function JumpAt(p: Program, w: World, i: nat): Option<nat>
    requires i < |p.tasks|
  {
    var a := CatchAction(p.conds, w, INIT.ctx.(task := p.tasks[i].name));
    if a.action == Jump && Truthy(a.to) then FindTask(p.tasks, a.to.value) else None
  }

  /** The task of the n-th call, when task `i` always fails, and sends the run to task
      `at`, and the tasks before it succeed. */
  function TaskOfCall(i: nat, at: nat, n: nat): nat {
    if n == 0 then 0
    else
      var before := TaskOfCall(i, at, n - 1);
      if before == i then at else before + 1
  }

  function FailsAt(i: nat, at: nat, render: Renderer): World {
    World((n: nat, t, ctx) => if TaskOfCall(i, at, n) == i then Raised(Null) else Returned(Null),
          render, (name, outcome) => Null)
  }

  lemma ForwardJumpsAreDisciplined(p: Program, w: World)
    requires SeesTaskOnly(w.render)
    requires forall i: nat | i < |p.tasks| && JumpAt(p, w, i).Some? :: JumpAt(p, w, i).value > i
    ensures Disciplined(p, w, MaxAttempts(p.conds))
  {
    forall i: nat, ctx: Context | i < |p.tasks| && ctx.task == p.tasks[i].name
      ensures var a := CatchAction(p.conds, w, ctx);
              && (a.action == Retry ==> a.attempts <= MaxAttempts(p.conds))
              && (a.action == Jump && Truthy(a.to) ==>
                    var at := FindTask(p.tasks, a.to.value); at.Some? ==> at.value > i)
    {
      hide CatchAction, SeesTaskOnly, FindTask, Live, MaxAttempts;
      SameTaskSameAction(p.conds, w, w, ctx, INIT.ctx.(task := p.tasks[i].name));
      CatchIsLive(p.conds, w, ctx);
      assert JumpAt(p, w, i).Some? ==> JumpAt(p, w, i).value > i;
    }
  }

  lemma {:induction false} ComesBack(p: Program, render: Renderer, i: nat, at: nat, s: State, fuel: nat)
    requires SeesTaskOnly(render) && i < |p.tasks| && at <= i && JumpAt(p, FailsAt(i, at, render), i) == Some(at)
    requires s.idx <= i && s.idx == TaskOfCall(i, at, s.calls)
    ensures Run(p, FailsAt(i, at, render), s, fuel).None?
    decreases fuel
  {
    hide CatchAction, SeesTaskOnly, FindTask;
    var w := FailsAt(i, at, render);
    if fuel > 0 {
      if s.idx == i {
        SameTaskSameAction(p.conds, w, w, AfterFailure(p, w, s).ctx, INIT.ctx.(task := p.tasks[i].name));
      }
      ComesBack(p, render, i, at, Step(p, w, s).state, fuel - 1);
    }
  }

  lemma SameJump(p: Program, v: World, w: World, i: nat)
    requires v.render == w.render && SeesTaskOnly(v.render) && i < |p.tasks|
    ensures JumpAt(p, v, i) == JumpAt(p, w, i)
  {
    SameTaskSameAction(p.conds, v, w, INIT.ctx.(task := p.tasks[i].name), INIT.ctx.(task := p.tasks[i].name));
  }

  /** When the conditions see only which task failed, the pipeline halts whatever its tools
      do, exactly when every jump goes to a later task than the one that failed: a jump to
      the same or an earlier task lets some run go on forever. */
  lemma HaltsIffJumpsForward(p: Program, w: World)
    requires SeesTaskOnly(w.render)
    ensures (forall tool, classify :: Halts(p, World(tool, w.render, classify)))
       <==> forall i: nat | i < |p.tasks| && JumpAt(p, w, i).Some? :: JumpAt(p, w, i).value > i
  {
    hide SeesTaskOnly, JumpAt, Disciplined, Run;
    if i: nat :| i < |p.tasks| && JumpAt(p, w, i).Some? && JumpAt(p, w, i).value <= i {
      var at := JumpAt(p, w, i).value;
      var v := FailsAt(i, at, w.render);
      SameJump(p, w, v, i);
      forall n: nat
        ensures Run(p, v, INIT, n).None?
      {
        ComesBack(p, w.render, i, at, INIT, n);
      }
      assert !Halts(p, World(v.tool, w.render, v.classify));
    } else {
      forall tool, classify
        ensures Halts(p, World(tool, w.render, classify))
      {
        var v := World(tool, w.render, classify);
        forall i: nat | i < |p.tasks| && JumpAt(p, v, i).Some?
          ensures JumpAt(p, v, i).value > i
        {
          SameJump(p, w, v, i);
        }
        ForwardJumpsAreDisciplined(p, v);
        PipelineHalts(p, v, MaxAttempts(p.conds));
      }
    }
  }
}
