/** What a run does with the outcomes of its calls, from what the tools return and what the
    catch block says, up to and across the first failure that is retried, jumps or ends it. */
module PipelineOutcomes {
  import opened Base
  import opened Pipeline

  // ---------------------------------------------------------------------------
  // Outcomes and conditions

  /** A call fails when it raises, or returns a dictionary whose status is "error". */
  predicate Erred(o: Outcome) {
    match o
    case Raised(_) => true
    case Returned(Dict(fields)) => "status" in fields && fields["status"] == Text("error")
    case Returned(_) => false
  }

  /** A condition says yes when it renders to a casing of true or yes, or to 1. */
  predicate SaysYes(rendered: Option<string>) {
    rendered.Some? && (CasingOf(rendered.value, "true") || rendered.value == "1" || CasingOf(rendered.value, "yes"))
  }

  /** What the catch block orders: the first else, or when that says yes. */
  function Ordered(conds: seq<Cond>, w: World, ctx: Context): Option<ActionSpec> {
    if conds == [] then None
    else
      match conds[0]
      case Else(spec) => Some(spec)
      case When(expr, spec) => if SaysYes(w.render(expr, ctx)) then Some(spec) else Ordered(conds[1..], w, ctx)
      case Ignored => Ordered(conds[1..], w, ctx)
  }

  lemma SaysYesIff(c: Cond, w: World, ctx: Context)
    requires c.When?
    ensures Decides(c, w, ctx) <==> SaysYes(w.render(c.expr, ctx))
  {
    if w.render(c.expr, ctx).Some? {
      var text := w.render(c.expr, ctx).value;
      LowerIff(text, "true");
      LowerIff(text, "yes");
      LowerIff(text, "1");
      assert CasingOf(text, "1") <==> text == "1";
    }
  }

  /** The catch action has the order's fields; `do` chooses the action, which fails the
      pipeline unless it is one of four words; three attempts unless it says otherwise. */
  lemma {:induction false} CatchIsOrdered(conds: seq<Cond>, w: World, ctx: Context)
    ensures var a := CatchAction(conds, w, ctx);
            match Ordered(conds, w, ctx)
            case None => a.action == Fail
            case Some(spec) =>
              && a.task == spec.task && a.from == spec.from && a.to == spec.to && a.setPrev == spec.setPrev
              && (spec.attempts.Some? ==> a.attempts == spec.attempts.value)
              && (spec.attempts.None? ==> a.attempts == 3)
              && (a.action == Retry <==> spec.do == Some("retry"))
              && (a.action == Skip <==> spec.do == Some("skip"))
              && (a.action == Jump <==> spec.do == Some("jump"))
              && (a.action == Continue <==> spec.do == Some("continue"))
  {
    hide Affirmative, SaysYes;
    if conds != [] {
      if conds[0].When? {
        SaysYesIff(conds[0], w, ctx);
      }
      CatchIsOrdered(conds[1..], w, ctx);
    }
  }

  // ---------------------------------------------------------------------------
  // One pass over the tasks

  /** What the run knows: the threaded value, the last error, the results. */
  datatype Known = Known(prev: Value, err: Option<Value>, results: map<string, Value>)

  /** What a task sees when it is tried for the n-th time. */
  function Seen(k: Known, name: string, attempt: nat): Context {
    Context(name, k.prev, k.err, attempt, k.results)
  }

  /** What is ordered when task `t` fails with outcome `o`. */
  function OrderAt(p: Program, w: World, k: Known, t: Task, o: Outcome): Option<ActionSpec> {
    Ordered(p.conds, w, Seen(k.(err := Some(w.classify(t.name, o))), t.name, 1))
  }

  /** What it knows after a call: a success sets the threaded value and the task's result and
      clears the error; a failure sets the error, and the threaded value if it is skipped with
      a value. */
  function After(p: Program, w: World, k: Known, t: Task, o: Outcome): Known {
    if !Erred(o) && o.Returned? then Known(o.value, None, k.results[t.name := o.value])
    else
      var order := OrderAt(p, w, k, t, o);
      var failed := k.(err := Some(w.classify(t.name, o)));
      if order.Some? && order.value.do == Some("skip") && order.value.setPrev != Null
      then failed.(prev := order.value.setPrev)
      else failed
  }

  /** What it knows before the k-th call, when every call before it passed on to the next
      task. */
  function KnownBefore(p: Program, w: World, k: nat): Known
    requires k <= |p.tasks|
  {
    if k == 0 then Known(Null, None, map[])
    else
      var before := KnownBefore(p, w, k - 1);
      After(p, w, before, p.tasks[k - 1], OutcomeIn(p, w, before, k - 1))
  }

  /** The outcome of the k-th call there. */
  function OutcomeIn(p: Program, w: World, before: Known, k: nat): Outcome
    requires k < |p.tasks|
  {
    w.tool(k, p.tasks[k], Seen(before, p.tasks[k].name, 1))
  }

  function OutcomeOf(p: Program, w: World, k: nat): Outcome
    requires k < |p.tasks|
  {
    OutcomeIn(p, w, KnownBefore(p, w, k), k)
  }

  /** The order at the k-th call, if it fails there. */
  function OrderOf(p: Program, w: World, k: nat): Option<ActionSpec>
    requires k < |p.tasks|
  {
    OrderAt(p, w, KnownBefore(p, w, k), p.tasks[k], OutcomeOf(p, w, k))
  }

  /** The k-th call succeeds, or is skipped or passed over. */
  predicate PassesOn(p: Program, w: World, k: nat)
    requires k < |p.tasks|
  {
    !Erred(OutcomeOf(p, w, k)) ||
    (OrderOf(p, w, k).Some? && OrderOf(p, w, k).value.do in {Some("skip"), Some("continue")})
  }

  ghost predicate AllPassOn(p: Program, w: World, n: nat)
    requires n <= |p.tasks|
  {
    forall k | 0 <= k < n :: PassesOn(p, w, k)
  }

  /** The state is at task `k`, at its first try, and knows what it should. */
  predicate At(p: Program, w: World, s: State, k: nat)
    requires k <= |p.tasks|
  {
    var known := KnownBefore(p, w, k);
    && s.idx == s.calls == k && s.retries == map[]
    && s.ctx.prev == known.prev && s.ctx.err == known.err && s.ctx.results == known.results
  }

  lemma {:induction false} CallIsOutcome(p: Program, w: World, s: State, k: nat)
    requires k < |p.tasks| && At(p, w, s, k)
    ensures CallOf(p, w, s) == OutcomeOf(p, w, k) && (Good(CallOf(p, w, s)) <==> !Erred(OutcomeOf(p, w, k)))
    ensures Erred(OutcomeOf(p, w, k)) ==>
              AfterFailure(p, w, s).ctx ==
              Seen(KnownBefore(p, w, k).(err := Some(w.classify(p.tasks[k].name, OutcomeOf(p, w, k)))),
                   p.tasks[k].name, 1)
  {
    hide KnownBefore;
    assert AtHead(s, p.tasks[k]) == Seen(KnownBefore(p, w, k), p.tasks[k].name, 1);
  }

  lemma PassGoesOn(p: Program, w: World, s: State, k: nat)
    requires k < |p.tasks| && At(p, w, s, k) && PassesOn(p, w, k)
    ensures Step(p, w, s).More? && At(p, w, Step(p, w, s).state, k + 1)
  {
    hide CatchAction, Ordered, FindTask, RetryTarget, Erred, IsErrorEnvelope;
    CallIsOutcome(p, w, s, k);
    if Erred(OutcomeOf(p, w, k)) {
      CatchIsOrdered(p.conds, w, AfterFailure(p, w, s).ctx);
    }
  }

  /** After `n` calls the run is at `s`. */
  ghost predicate ContinuesFrom(p: Program, w: World, n: nat, s: State) {
    forall fuel: nat :: Run(p, w, INIT, n + fuel) == Run(p, w, s, fuel)
  }

  lemma OneMoreCall(p: Program, w: World, n: nat, s: State)
    requires ContinuesFrom(p, w, n, s) && s.idx < |p.tasks| && Step(p, w, s).More?
    ensures ContinuesFrom(p, w, n + 1, Step(p, w, s).state)
  {
    hide Step;
    forall fuel: nat
      ensures Run(p, w, INIT, (n + 1) + fuel) == Run(p, w, Step(p, w, s).state, fuel)
    {
      assert Run(p, w, INIT, n + (fuel + 1)) == Run(p, w, s, fuel + 1);
    }
  }

  lemma {:induction false} PassReaches(p: Program, w: World, k: nat)
    requires k <= |p.tasks| && AllPassOn(p, w, k)
    ensures Reached(p, w, k).Some? && At(p, w, Reached(p, w, k).value, k)
    ensures ContinuesFrom(p, w, k, Reached(p, w, k).value)
    ensures forall fuel: nat | fuel < k :: Run(p, w, INIT, fuel).None?
  {
    hide Step, At, PassesOn;
    if k == 0 {
      StartsAt(p, w);
    } else {
      PassReaches(p, w, k - 1);
      var s := Reached(p, w, k - 1).value;
      IndexAt(p, w, s, k - 1);
      PassGoesOn(p, w, s, k - 1);
      OneMoreCall(p, w, k - 1, s);
      assert Run(p, w, INIT, (k - 1) + 0) == Run(p, w, s, 0);
    }
  }

  lemma StartsAt(p: Program, w: World)
    ensures At(p, w, INIT, 0)
  {
  }

  lemma IndexAt(p: Program, w: World, s: State, k: nat)
    requires k <= |p.tasks| && At(p, w, s, k)
    ensures s.idx == k
  {
  }

  /** When every failure is skipped or passed over, the pipeline takes one call for each
      task, in order, and succeeds with what it then knows. */
  lemma {:induction false} OnePassLaw(p: Program, w: World)
    requires AllPassOn(p, w, |p.tasks|)
    ensures var known := KnownBefore(p, w, |p.tasks|);
            var r := Run(p, w, INIT, |p.tasks|);
            r.Some? && r.value.result == Success(known.prev, known.results)
    ensures forall fuel: nat | fuel < |p.tasks| :: Run(p, w, INIT, fuel).None?
  {
    hide KnownBefore, PassesOn;
    PassReaches(p, w, |p.tasks|);
    assert Run(p, w, INIT, |p.tasks| + 0) == Run(p, w, Reached(p, w, |p.tasks|).value, 0);
  }

  // ---------------------------------------------------------------------------
  // The first failure that does not pass on

  /** Call `k` is the first that fails and is neither skipped nor passed over. */
  ghost predicate FirstCaught(p: Program, w: World, k: nat) {
    k < |p.tasks| && AllPassOn(p, w, k) && !PassesOn(p, w, k)
  }

  /** The pipeline ends there with the error and the task, and with what it knew. */
  ghost predicate FailsThere(p: Program, w: World, k: nat)
    requires k < |p.tasks|
  {
    var known := KnownBefore(p, w, k);
    var r := Run(p, w, INIT, k + 1);
    && r.Some?
    && r.value.result == Failed(known.prev, known.results, Some(w.classify(p.tasks[k].name, OutcomeOf(p, w, k))),
                                p.tasks[k].name)
  }

  /** It goes on at task `i`, knowing the same and the error, with `retried` counted once. */
  ghost predicate GoesOnAt(p: Program, w: World, k: nat, i: nat, retried: map<string, nat>)
    requires k < |p.tasks|
  {
    var s := Reached(p, w, k + 1);
    var known := KnownBefore(p, w, k);
    && s.Some? && s.value.idx == i && s.value.calls == k + 1 && s.value.retries == retried
    && s.value.ctx.prev == known.prev && s.value.ctx.results == known.results
    && s.value.ctx.err == Some(w.classify(p.tasks[k].name, OutcomeOf(p, w, k)))
    && ContinuesFrom(p, w, k + 1, s.value)
  }

  /** `i` is the first task of that name. */
  predicate IsFirst(tasks: seq<Task>, name: string, i: nat) {
    i < |tasks| && tasks[i].name == name && forall j | 0 <= j < i :: tasks[j].name != name
  }

  lemma {:induction false} FindTaskIff(tasks: seq<Task>, name: string)
    ensures match FindTask(tasks, name)
            case None => forall i | 0 <= i < |tasks| :: tasks[i].name != name
            case Some(i) => IsFirst(tasks, name, i)
  {
    if tasks != [] {
      FindTaskIff(tasks[1..], name);
      assert forall i | 1 <= i < |tasks| :: tasks[i] == tasks[1..][i - 1];
    }
  }

  /** Where a retry starts again: at `from`, else at `task`, else at the failed task; an
      empty name does not count. */
  predicate IsTarget(spec: ActionSpec, failed: string, target: string) {
    if spec.from.Some? && spec.from.value != "" then target == spec.from.value
    else if spec.task.Some? && spec.task.value != "" then target == spec.task.value
    else target == failed
  }

  /** The attempts an order allows; three unless it says otherwise. */
  function Allowed(spec: ActionSpec): int {
    if spec.attempts.Some? then spec.attempts.value else 3
  }

  /** The step at the first caught failure. */
  lemma {:induction false} CaughtStep(p: Program, w: World, k: nat)
    requires FirstCaught(p, w, k)
    ensures var s := Reached(p, w, k);
            var spec := OrderOf(p, w, k);
            s.Some? && s.value.idx == k && s.value.retries == map[] && s.value.calls == k &&
            var f := AfterFailure(p, w, s.value);
            var a := CatchAction(p.conds, w, f.ctx);
            var known := KnownBefore(p, w, k);
            && Step(p, w, s.value) == Control(p, f, p.tasks[k].name, a)
            && f.calls == k + 1 && f.retries == map[]
            && f.ctx.prev == known.prev && f.ctx.results == known.results
            && f.ctx.err == Some(w.classify(p.tasks[k].name, OutcomeOf(p, w, k)))
            && (spec.None? ==> a.action == Fail)
            && (spec.Some? ==>
                  && a.task == spec.value.task && a.from == spec.value.from && a.to == spec.value.to
                  && a.attempts == Allowed(spec.value)
                  && (a.action == Retry <==> spec.value.do == Some("retry"))
                  && (a.action == Jump <==> spec.value.do == Some("jump"))
                  && a.action != Skip && a.action != Continue)
  {
    hide CatchAction, Ordered, KnownBefore, Erred, IsErrorEnvelope, Control;
    PassReaches(p, w, k);
    var s := Reached(p, w, k).value;
    CallIsOutcome(p, w, s, k);
    CatchIsOrdered(p.conds, w, AfterFailure(p, w, s).ctx);
  }

  lemma {:induction false} HaltsThere(p: Program, w: World, k: nat)
    requires FirstCaught(p, w, k) && Reached(p, w, k).Some? && Reached(p, w, k).value.idx == k
    requires Step(p, w, Reached(p, w, k).value).Halt?
    requires var known := KnownBefore(p, w, k);
             Step(p, w, Reached(p, w, k).value).result ==
             Failed(known.prev, known.results, Some(w.classify(p.tasks[k].name, OutcomeOf(p, w, k))), p.tasks[k].name)
    ensures FailsThere(p, w, k)
  {
    hide Step, KnownBefore, PassesOn;
    PassReaches(p, w, k);
    assert Run(p, w, INIT, k + 1) == Run(p, w, Reached(p, w, k).value, 1);
  }

  lemma GoesOn(p: Program, w: World, k: nat)
    requires FirstCaught(p, w, k) && Reached(p, w, k).Some? && Reached(p, w, k).value.idx == k
    requires Step(p, w, Reached(p, w, k).value).More?
    ensures Reached(p, w, k + 1) == Some(Step(p, w, Reached(p, w, k).value).state)
    ensures ContinuesFrom(p, w, k + 1, Reached(p, w, k + 1).value)
  {
    hide Step, KnownBefore, PassesOn;
    PassReaches(p, w, k);
    OneMoreCall(p, w, k, Reached(p, w, k).value);
  }

  /** No order, or one that names none of the four actions, fails the pipeline. */
  lemma UnhandledFails(p: Program, w: World, k: nat)
    requires FirstCaught(p, w, k)
    requires OrderOf(p, w, k).None? || OrderOf(p, w, k).value.do !in {Some("retry"), Some("jump")}
    ensures FailsThere(p, w, k)
  {
    hide Reached, CatchAction, OrderOf, KnownBefore, PassesOn, FindTask, RetryTarget, Step;
    CaughtStep(p, w, k);
    HaltsThere(p, w, k);
  }

  /** A jump goes on at the first task of that name, or fails when it names none. */
  lemma JumpGoesTo(p: Program, w: World, k: nat)
    requires FirstCaught(p, w, k) && OrderOf(p, w, k).Some? && OrderOf(p, w, k).value.do == Some("jump")
    ensures var to := OrderOf(p, w, k).value.to;
            if to.Some? && to.value != "" && exists i: nat :: IsFirst(p.tasks, to.value, i)
            then forall i: nat | IsFirst(p.tasks, to.value, i) :: GoesOnAt(p, w, k, i, map[])
            else FailsThere(p, w, k)
  {
    hide Reached, CatchAction, OrderOf, KnownBefore, PassesOn, FindTask, RetryTarget, Step;
    CaughtStep(p, w, k);
    var to := OrderOf(p, w, k).value.to;
    if to.Some? {
      FindTaskIff(p.tasks, to.value);
    }
    if Step(p, w, Reached(p, w, k).value).Halt? {
      HaltsThere(p, w, k);
    } else {
      GoesOn(p, w, k);
    }
  }

  /** A retry goes on at the first task of its target's name, counted once, or fails when it
      allows no attempt or there is no such task. */
  lemma RetryGoesTo(p: Program, w: World, k: nat, target: string)
    requires FirstCaught(p, w, k) && OrderOf(p, w, k).Some? && OrderOf(p, w, k).value.do == Some("retry")
    requires IsTarget(OrderOf(p, w, k).value, p.tasks[k].name, target)
    ensures if Allowed(OrderOf(p, w, k).value) >= 1 && exists i: nat :: IsFirst(p.tasks, target, i)
            then forall i: nat | IsFirst(p.tasks, target, i) :: GoesOnAt(p, w, k, i, map[target := 1])
            else FailsThere(p, w, k)
  {
    hide Reached, CatchAction, OrderOf, KnownBefore, PassesOn, FindTask, Step, Allowed;
    CaughtStep(p, w, k);
    FindTaskIff(p.tasks, target);
    if Step(p, w, Reached(p, w, k).value).Halt? {
      HaltsThere(p, w, k);
    } else {
      GoesOn(p, w, k);
    }
  }

  // ---------------------------------------------------------------------------
  // The events of any run

  /** What a call in state `s` adds to the history: its success, or its failure, and the value
      it is skipped with. */
  function EventsOf(p: Program, w: World, s: State): seq<Event>
    requires s.idx < |p.tasks|
  {
    var name, o := p.tasks[s.idx].name, CallOf(p, w, s);
    if !Erred(o) && o.Returned? then [Succeeded(name, o.value)]
    else
      var error := w.classify(name, o);
      var ctx := s.ctx.(task := name, err := Some(error), attempt := CountOf(s.retries, name) + 1);
      var order := Ordered(p.conds, w, ctx);
      [FailedAttempt(name, error)]
      + (if order.Some? && order.value.do == Some("skip") && order.value.setPrev != Null
         then [SkippedWith(order.value.setPrev)] else [])
  }

  function EventsBefore(p: Program, w: World, n: nat): seq<Event> {
    if n == 0 then []
    else
      var s := Reached(p, w, n - 1);
      EventsBefore(p, w, n - 1) + (if s.Some? && s.value.idx < |p.tasks| then EventsOf(p, w, s.value) else [])
  }

  lemma StepLogsOutcome(p: Program, w: World, s: State)
    requires s.idx < |p.tasks| && Step(p, w, s).More?
    ensures Step(p, w, s).state.log == s.log + EventsOf(p, w, s)
  {
    hide CatchAction, Ordered, FindTask, RetryTarget, CountOf;
    SaysErred(CallOf(p, w, s));
    if !Good(CallOf(p, w, s)) {
      CatchIsOrdered(p.conds, w, AfterFailure(p, w, s).ctx);
      var name := p.tasks[s.idx].name;
      assert AfterFailure(p, w, s).ctx ==
          s.ctx.(task := name, err := Some(w.classify(name, CallOf(p, w, s))), attempt := CountOf(s.retries, name) + 1);
      assert s.log + [FailedAttempt(name, w.classify(name, CallOf(p, w, s)))] + [] ==
          s.log + [FailedAttempt(name, w.classify(name, CallOf(p, w, s)))];
    }
  }

  lemma SaysErred(o: Outcome)
    ensures Good(o) <==> !Erred(o)
  {
  }

  /** The history that `results` and `_prev` reflect in any run, retries and jumps included,
      is that of its outcomes. */
  lemma {:induction false} LogIsOutcomes(p: Program, w: World, n: nat)
    ensures Reached(p, w, n).Some? ==> Reached(p, w, n).value.log == EventsBefore(p, w, n)
  {
    hide Step, EventsOf;
    if n > 0 && Reached(p, w, n).Some? {
      LogIsOutcomes(p, w, n - 1);
      StepLogsOutcome(p, w, Reached(p, w, n - 1).value);
    }
  }

  // ---------------------------------------------------------------------------
  // A task that never succeeds

  /** The retry order of a catch block for one task: `attempts` as given. */
  function RetryAlways(attempts: Option<int>): seq<Cond> {
    [Else(ActionSpec(Some("retry"), None, None, None, attempts, Null))]
  }

  /** The tool raises as long as it is told the attempt it expects, and then returns that
      number. */
  function ExpectsAttempts(n: nat): World {
    World((k: nat, t, ctx: Context) =>
            if ctx.attempt == k + 1 && k < n then Raised(Null) else Returned(Num(ctx.attempt)),
          (expr, ctx) => None, (name, outcome) => Null)
  }

  ghost predicate Trying(s: State, name: string, k: nat) {
    s.idx == 0 && s.calls == k && CountOf(s.retries, name) == k
  }

  /** The retries an order allows; none when it allows less. */
  function Retries(attempts: Option<int>): nat {
    if attempts.None? then 3 else if attempts.value >= 0 then attempts.value else 0
  }

  lemma TryAgain(t: Task, attempts: Option<int>, n: nat, s: State, k: nat)
    requires Trying(s, t.name, k) && k <= n
    ensures var next := Step(Program([t], RetryAlways(attempts)), ExpectsAttempts(n), s);
            if k == n then next.More? && next.state.idx == 1 && next.state.ctx.prev == Num(n + 1)
            else if k >= Retries(attempts) then next.Halt? && next.result.Failed?
            else next.More? && Trying(next.state, t.name, k + 1)
  {
    var p, w := Program([t], RetryAlways(attempts)), ExpectsAttempts(n);
    if k < n {
      assert CallOf(p, w, s) == Raised(Null);
    } else {
      assert CallOf(p, w, s) == Returned(Num(n + 1));
    }
  }

  lemma {:induction false} KeepsTrying(t: Task, attempts: Option<int>, n: nat, s: State, k: nat, fuel: nat)
    requires Trying(s, t.name, k) && k <= n && k <= Retries(attempts)
    ensures var r := Run(Program([t], RetryAlways(attempts)), ExpectsAttempts(n), s, fuel);
            var calls := (if n <= Retries(attempts) then n else Retries(attempts)) + 1 - k;
            if fuel < calls then r.None?
            else if n <= Retries(attempts) then r.Some? && r.value.result.Success? && r.value.result.prev == Num(n + 1)
            else r.Some? && r.value.result.Failed?
    decreases fuel
  {
    hide Step, ExpectsAttempts, RetryAlways;
    TryAgain(t, attempts, n, s, k);
    if fuel > 0 && k < n && k < Retries(attempts) {
      var next := Step(Program([t], RetryAlways(attempts)), ExpectsAttempts(n), s).state;
      KeepsTrying(t, attempts, n, next, k + 1, fuel - 1);
    }
  }

  /** A task that fails its first `n` tries and is always retried is tried again as often as
      the order allows, three times if it does not say, and told the number of each try: it
      succeeds, in its n + 1-st, exactly when `n` retries are allowed. */
  lemma {:induction false} TriedAsAllowed(t: Task, attempts: Option<int>, n: nat, fuel: nat)
    ensures var r := Run(Program([t], RetryAlways(attempts)), ExpectsAttempts(n), INIT, fuel);
            var allowed := if attempts.None? then 3 else if attempts.value >= 0 then attempts.value else 0;
            if fuel < (if n <= allowed then n else allowed) + 1 then r.None?
            else if n <= allowed then r.Some? && r.value.result.Success? && r.value.result.prev == Num(n + 1)
            else r.Some? && r.value.result.Failed?
  {
    hide Run;
    KeepsTrying(t, attempts, n, INIT, 0, fuel);
  }

  // ---------------------------------------------------------------------------
  // The task list

  /** The tasks of a list are those of its parts in order; a definition contributes its
      entries in order, and an entry without a tool, or no dictionary, nothing. */
  lemma {:induction false} TasksInOrder(a: seq<PipeItem>, b: seq<PipeItem>)
    ensures TasksOf(a + b) == TasksOf(a) + TasksOf(b)
    ensures TasksOf([NotADict]) == []
    decreases |b|
  {
    assert TasksOf([NotADict][..0]) == [];
    if b == [] {
      assert a + b == a;
    } else {
      assert (a + b)[..|a + b| - 1] == a + b[..|b| - 1];
      TasksInOrder(a, b[..|b| - 1]);
    }
  }

  lemma {:induction false} OneDefinition(entries: seq<(string, Option<Value>)>)
    ensures TasksOf([Definitions(entries)]) == TasksOfEntries(entries)
  {
    assert [Definitions(entries)][..0] == [];
  }

  lemma {:induction false} EntriesConcat(a: seq<(string, Option<Value>)>, b: seq<(string, Option<Value>)>)
    ensures TasksOfEntries(a + b) == TasksOfEntries(a) + TasksOfEntries(b)
    decreases |b|
  {
    if b == [] {
      assert a + b == a;
    } else {
      assert (a + b)[..|a + b| - 1] == a + b[..|b| - 1];
      EntriesConcat(a, b[..|b| - 1]);
    }
  }

  lemma EntriesInOrder(a: seq<(string, Option<Value>)>, b: seq<(string, Option<Value>)>, name: string, tool: Value)
    ensures TasksOf([Definitions(a + b)]) == TasksOf([Definitions(a)]) + TasksOf([Definitions(b)])
    ensures TasksOf([Definitions([(name, None)])]) == []
    ensures TasksOf([Definitions([(name, Some(tool))])]) == [Task(name, tool)]
  {
    hide TasksOf;
    OneDefinition(a + b);
    OneDefinition(a);
    OneDefinition(b);
    EntriesConcat(a, b);
    var absent: (string, Option<Value>), present: (string, Option<Value>) := (name, None), (name, Some(tool));
    OneDefinition([absent]);
    OneDefinition([present]);
    assert [absent][..0] == [] && [present][..0] == [];
  }
}
