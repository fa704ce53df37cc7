/** The pipeline executor: an interpreter for a task list whose failures are
    routed by a catch block (retry, skip, jump, continue or fail).

    Tools, templates and error classification are oracles. A tool sees the number
    of calls made before it, so it may fail in any pattern over a run. */
module Pipeline {
  import opened Base

  datatype Value = Null | Num(n: int) | Text(s: string) | Dict(fields: map<string, Value>)

  datatype Task = Task(name: string, tool: Value)

  /** What a tool call did: it returned a value or raised. */
  datatype Outcome = Returned(value: Value) | Raised(error: Value)

  /** The template variables a task sees. */
  datatype Context = Context(
    task: string, prev: Value, err: Option<Value>, attempt: nat, results: map<string, Value>)

  datatype ActionSpec = ActionSpec(
    do: Option<string>, task: Option<string>, from: Option<string>, to: Option<string>,
    attempts: Option<int>, setPrev: Value)

  /** The `do` values the executor knows; any other value fails the pipeline. */
  datatype ActionKind = Retry | Skip | Jump | Continue | Fail

  datatype ControlAction = ControlAction(
    action: ActionKind, task: Option<string>, from: Option<string>, to: Option<string>,
    attempts: int, setPrev: Value)

  /** One entry of `catch.cond`; an entry that is not a dictionary, or has neither
      key, is `Ignored`. */
  datatype Cond = Ignored | Else(spec: ActionSpec) | When(expr: string, spec: ActionSpec)

  datatype World = World(
    tool: (nat, Task, Context) -> Outcome,
    render: (string, Context) -> Option<string>,
    classify: (string, Outcome) -> Value)

  datatype Program = Program(tasks: seq<Task>, conds: seq<Cond>)

  datatype RunResult =
    | Success(prev: Value, results: map<string, Value>)
    | Failed(prev: Value, results: map<string, Value>, error: Option<Value>, failedTask: string)

  /** The run's history, for stating what the context remembers of it. */
  datatype Event =
    | Succeeded(task: string, value: Value)
    | SkippedWith(value: Value)
    | FailedAttempt(task: string, error: Value)

  datatype State = State(
    idx: nat, ctx: Context, retries: map<string, nat>, calls: nat, log: seq<Event>)

  datatype Next = More(state: State) | Halt(result: RunResult, last: State)

  datatype Final = Final(result: RunResult, last: State)

  // ---------------------------------------------------------------------------
  // One loop iteration

  predicate IsErrorEnvelope(v: Value) {
    v.Dict? && "status" in v.fields && v.fields["status"] == Text("error")
  }

  predicate Good(o: Outcome) {
    o.Returned? && !IsErrorEnvelope(o.value)
  }

  /** `x or y` on optional names: an absent or empty name is false. */
  predicate Truthy(name: Option<string>) {
    name.Some? && name.value != ""
  }

  function KindOf(do: Option<string>): ActionKind {
    if do == Some("retry") then Retry
    else if do == Some("skip") then Skip
    else if do == Some("jump") then Jump
    else if do == Some("continue") then Continue
    else Fail
  }

  function ParseAction(spec: ActionSpec): ControlAction {
    ControlAction(
      KindOf(spec.do),
      spec.task, spec.from, spec.to,
      if spec.attempts.Some? then spec.attempts.value else 3,
      spec.setPrev)
  }

  const FAIL_ACTION := ControlAction(Fail, None, None, None, 3, Null)

  predicate Affirmative(rendered: string) {
    var text := Lower(rendered);
    text == "true" || text == "1" || text == "yes"
  }

  /** Whether the condition picks the action; a rendering error counts as no. */
  predicate Decides(c: Cond, w: World, ctx: Context) {
    match c
    case Ignored => false
    case Else(_) => true
    case When(expr, _) =>
      var rendered := w.render(expr, ctx);
      rendered.Some? && Affirmative(rendered.value)
  }

  /** The action of the first deciding condition, `fail` when none decides. */
  function CatchAction(conds: seq<Cond>, w: World, ctx: Context): ControlAction {
    if conds == [] then FAIL_ACTION
    else if Decides(conds[0], w, ctx) then ParseAction(conds[0].spec)
    else CatchAction(conds[1..], w, ctx)
  }

  lemma {:induction false} FirstDecidingCondition(conds: seq<Cond>, w: World, ctx: Context, i: nat)
    requires i <= |conds|
    requires forall j | 0 <= j < i :: !Decides(conds[j], w, ctx)
    ensures i == |conds| ==> CatchAction(conds, w, ctx) == FAIL_ACTION
    ensures i < |conds| && Decides(conds[i], w, ctx) ==>
              CatchAction(conds, w, ctx) == ParseAction(conds[i].spec)
  {
    if i > 0 {
      assert forall j | 1 <= j < |conds| :: conds[j] == conds[1..][j - 1];
      FirstDecidingCondition(conds[1..], w, ctx, i - 1);
    }
  }

  /** The index of the first task of that name. */
  function FindTask(tasks: seq<Task>, name: string): (r: Option<nat>)
    ensures r.Some? ==> r.value < |tasks| && tasks[r.value].name == name
  {
    if tasks == [] then None
    else if tasks[0].name == name then Some(0)
    else
      var rest := FindTask(tasks[1..], name);
      if rest.None? then None else Some(rest.value + 1)
  }

  lemma {:induction false} FindsFirstTask(tasks: seq<Task>, i: nat)
    requires i < |tasks|
    requires forall j | 0 <= j < i :: tasks[j].name != tasks[i].name
    ensures FindTask(tasks, tasks[i].name) == Some(i)
  {
    if i > 0 {
      assert tasks[0].name != tasks[i].name;
      assert forall j | 1 <= j < |tasks| :: tasks[j] == tasks[1..][j - 1];
      FindsFirstTask(tasks[1..], i - 1);
    }
  }

  function CountOf(retries: map<string, nat>, name: string): nat {
    if name in retries then retries[name] else 0
  }

  function AtHead(s: State, t: Task): Context {
    s.ctx.(task := t.name, attempt := CountOf(s.retries, t.name) + 1)
  }

  function UpdatedPrev(ctx: Context, name: string, v: Value): Context {
    ctx.(prev := v, task := name, results := ctx.results[name := v], err := None)
  }

  function UpdatedError(ctx: Context, name: string, error: Value): Context {
    ctx.(task := name, err := Some(error))
  }

  function FailWith(s: State, name: string): Next {
    Halt(Failed(s.ctx.prev, s.ctx.results, s.ctx.err, name), s)
  }

  function RetryTarget(name: string, a: ControlAction): string {
    if Truthy(a.from) then a.from.value else if Truthy(a.task) then a.task.value else name
  }

  /** What the executor does with a failed task, once the catch block chose `a`. */
  function Control(p: Program, s: State, name: string, a: ControlAction): Next {
    if a.action == Retry then
      var target := RetryTarget(name, a);
      var s' := s.(retries := s.retries[target := CountOf(s.retries, target) + 1]);
      var at := FindTask(p.tasks, target);
      if s'.retries[target] > a.attempts || at.None? then FailWith(s', name)
      else More(s'.(idx := at.value))
    else if a.action == Skip then
      if a.setPrev != Null then
        More(s.(idx := s.idx + 1, ctx := s.ctx.(prev := a.setPrev), log := s.log + [SkippedWith(a.setPrev)]))
      else More(s.(idx := s.idx + 1))
    else if a.action == Jump then
      if !Truthy(a.to) then FailWith(s, name)
      else
        var at := FindTask(p.tasks, a.to.value);
        if at.None? then FailWith(s, name) else More(s.(idx := at.value))
    else if a.action == Continue then More(s.(idx := s.idx + 1))
    else FailWith(s, name)
  }

  /** The tool call a loop iteration makes. */
  function CallOf(p: Program, w: World, s: State): Outcome
    requires s.idx < |p.tasks|
  {
    w.tool(s.calls, p.tasks[s.idx], AtHead(s, p.tasks[s.idx]))
  }

  /** The state after a failed call, on which the catch block is evaluated. */
  function AfterFailure(p: Program, w: World, s: State): State
    requires s.idx < |p.tasks|
  {
    var t := p.tasks[s.idx];
    var error := w.classify(t.name, CallOf(p, w, s));
    s.(ctx := UpdatedError(AtHead(s, t), t.name, error), calls := s.calls + 1,
       log := s.log + [FailedAttempt(t.name, error)])
  }

  function Step(p: Program, w: World, s: State): Next
    requires s.idx < |p.tasks|
  {
    var t := p.tasks[s.idx];
    var outcome := CallOf(p, w, s);
    if Good(outcome) then
      More(State(s.idx + 1, UpdatedPrev(AtHead(s, t), t.name, outcome.value), s.retries,
                 s.calls + 1, s.log + [Succeeded(t.name, outcome.value)]))
    else
      var s' := AfterFailure(p, w, s);
      Control(p, s', t.name, CatchAction(p.conds, w, s'.ctx))
  }

  const INIT := State(0, Context("", Null, None, 1, map[]), map[], 0, [])

  /** The run from `s`, if it ends within `fuel` tool calls. */
  function Run(p: Program, w: World, s: State, fuel: nat): Option<Final>
    decreases fuel
  {
    if s.idx >= |p.tasks| then Some(Final(Success(s.ctx.prev, s.ctx.results), s))
    else if fuel == 0 then None
    else
      match Step(p, w, s)
      case More(s') => Run(p, w, s', fuel - 1)
      case Halt(r, last) => Some(Final(r, last))
  }

  /** The state before call `n`, if the run gets that far. */
  function Reached(p: Program, w: World, n: nat): Option<State> {
    if n == 0 then Some(INIT)
    else
      var before := Reached(p, w, n - 1);
      if before.None? || before.value.idx >= |p.tasks| then None
      else
        match Step(p, w, before.value)
        case More(s) => Some(s)
        case Halt(_, _) => None
  }

  ghost predicate Halts(p: Program, w: World) {
    exists n: nat :: Run(p, w, INIT, n).Some?
  }

  /** More fuel does not change a run that ended. */
  lemma {:induction false} RunMore(p: Program, w: World, s: State, n: nat, more: nat)
    requires Run(p, w, s, n).Some?
    ensures Run(p, w, s, n + more) == Run(p, w, s, n)
    decreases n
  {
    hide Step;
    if s.idx < |p.tasks| && n > 0 && Step(p, w, s).More? {
      RunMore(p, w, Step(p, w, s).state, n - 1, more);
    }
  }

  // ---------------------------------------------------------------------------
  // The executor itself

  /** One definition of the `pipe` list: a name with its tool, or with a body that
      is not a task. */
  datatype PipeItem = NotADict | Definitions(entries: seq<(string, Option<Value>)>)

  function TasksOfEntries(entries: seq<(string, Option<Value>)>): seq<Task> {
    if entries == [] then []
    else
      var e := entries[|entries| - 1];
      TasksOfEntries(entries[..|entries| - 1]) + (if e.1.Some? then [Task(e.0, e.1.value)] else [])
  }

  function TasksOf(pipe: seq<PipeItem>): seq<Task> {
    if pipe == [] then []
    else
      var item := pipe[|pipe| - 1];
      TasksOf(pipe[..|pipe| - 1]) + (if item.Definitions? then TasksOfEntries(item.entries) else [])
  }

  method ParseTasks(pipe: seq<PipeItem>) returns (tasks: seq<Task>)
    ensures tasks == TasksOf(pipe)
  {
    tasks := [];
    for i := 0 to |pipe|
      invariant tasks == TasksOf(pipe[..i])
    {
      assert pipe[..i + 1][..i] == pipe[..i];
      if pipe[i].Definitions? {
        var entries := pipe[i].entries;
        for k := 0 to |entries|
          invariant tasks == TasksOf(pipe[..i]) + TasksOfEntries(entries[..k])
        {
          assert entries[..k + 1][..k] == entries[..k];
          if entries[k].1.Some? {
            tasks := tasks + [Task(entries[k].0, entries[k].1.value)];
          }
        }
        assert entries[..|entries|] == entries;
      }
    }
    assert pipe[..|pipe|] == pipe;
  }

  class PipelineContext {
    var task: string
    var prev: Value
    var err: Option<Value>
    var attempt: nat
    var results: map<string, Value>

    constructor ()
      ensures Snapshot() == INIT.ctx
    {
      task, prev, err, attempt, results := "", Null, None, 1, map[];
    }

    function Snapshot(): Context
      reads this
    {
      Context(task, prev, err, attempt, results)
    }

    method UpdatePrev(name: string, v: Value)
      modifies this
      ensures Snapshot() == UpdatedPrev(old(Snapshot()), name, v)
    {
      prev := v;
      task := name;
      results := results[name := v];
      err := None;
    }

    method UpdateError(name: string, error: Value)
      modifies this
      ensures Snapshot() == UpdatedError(old(Snapshot()), name, error)
    {
      task := name;
      err := Some(error);
    }
  }

  class PipelineExecutor {
    const world: World

    constructor (w: World)
      ensures world == w
    {
      world := w;
    }

    method EvaluateCatch(conds: seq<Cond>, ctx: Context) returns (a: ControlAction)
      ensures a == CatchAction(conds, world, ctx)
    {
      for i := 0 to |conds|
        invariant forall j | 0 <= j < i :: !Decides(conds[j], world, ctx)
      {
        FirstDecidingCondition(conds, world, ctx, i);
        match conds[i]
        case Ignored =>
        case Else(spec) =>
          return ParseAction(spec);
        case When(expr, spec) =>
          var rendered := world.render(expr, ctx);
          if rendered.Some? && Affirmative(rendered.value) {
            return ParseAction(spec);
          }
      }
      FirstDecidingCondition(conds, world, ctx, |conds|);
      a := FAIL_ACTION;
    }

    /** Carries out the action chosen for the failed task `name`: either the pipeline
        ends with a result, or the loop goes on at the returned index. */
    method ApplyControl(tasks: seq<Task>, ghost conds: seq<Cond>, ctx: PipelineContext, ghost s: State,
                        name: string, a: ControlAction, idx: nat, retries: map<string, nat>)
      returns (halted: Option<RunResult>, idx': nat, retries': map<string, nat>, ghost log': seq<Event>)
      requires s.idx == idx && s.retries == retries && s.ctx == ctx.Snapshot()
      modifies ctx
      ensures match Control(Program(tasks, conds), s, name, a)
              case More(s') =>
                halted.None? && s' == State(idx', ctx.Snapshot(), retries', s.calls, log')
              case Halt(r, _) => halted == Some(r)
    {
      halted, idx', retries', log' := None, idx, retries, s.log;
      var failed := Failed(ctx.prev, ctx.results, ctx.err, name);
      if a.action == Retry {
        var target := RetryTarget(name, a);
        retries' := retries[target := CountOf(retries, target) + 1];
        if retries'[target] > a.attempts {
          halted := Some(failed);
          return;
        }
        var at := FindTask(tasks, target);
        if at.None? {
          halted := Some(failed);
          return;
        }
        idx' := at.value;
      } else if a.action == Skip {
        if a.setPrev != Null {
          ctx.prev := a.setPrev;
          log' := log' + [SkippedWith(a.setPrev)];
        }
        idx' := idx + 1;
      } else if a.action == Jump {
        if !Truthy(a.to) {
          halted := Some(failed);
          return;
        }
        var at := FindTask(tasks, a.to.value);
        if at.None? {
          halted := Some(failed);
          return;
        }
        idx' := at.value;
      } else if a.action == Continue {
        idx' := idx + 1;
      } else {
        halted := Some(failed);
      }
    }

    /** One pass of the loop: call the task's tool, then record its result or carry out
        the action its failure calls for. */
    method Attempt(tasks: seq<Task>, conds: seq<Cond>, ctx: PipelineContext, ghost s: State,
                   idx: nat, retries: map<string, nat>, calls: nat)
      returns (halted: Option<RunResult>, idx': nat, retries': map<string, nat>, ghost log': seq<Event>)
      requires idx < |tasks| && s == State(idx, ctx.Snapshot(), retries, calls, s.log)
      modifies ctx
      ensures match Step(Program(tasks, conds), world, s)
              case More(s') =>
                halted.None? && s' == State(idx', ctx.Snapshot(), retries', calls + 1, log')
              case Halt(r, _) => halted == Some(r)
    {
      hide Control, CatchAction, IsErrorEnvelope;
      ghost var p := Program(tasks, conds);
      var t := tasks[idx];
      ctx.task := t.name;
      ctx.attempt := CountOf(retries, t.name) + 1;
      assert ctx.Snapshot() == AtHead(s, t);
      var outcome := world.tool(calls, t, ctx.Snapshot());
      if Good(outcome) {
        ctx.UpdatePrev(t.name, outcome.value);
        halted, idx', retries', log' := None, idx + 1, retries, s.log + [Succeeded(t.name, outcome.value)];
      } else {
        var error := world.classify(t.name, outcome);
        ctx.UpdateError(t.name, error);
        ghost var s' := AfterFailure(p, world, s);
        assert s' == State(idx, ctx.Snapshot(), retries, calls + 1, s.log + [FailedAttempt(t.name, error)]);
        var a := EvaluateCatch(conds, ctx.Snapshot());
        halted, idx', retries', log' := ApplyControl(tasks, conds, ctx, s', t.name, a, idx, retries);
      }
    }

    /** Runs the pipeline. The call returns exactly when the run halts; its result is
        the result of the run. */
    method Execute(pipe: seq<PipeItem>, conds: seq<Cond>) returns (r: RunResult)
      requires Halts(Program(TasksOf(pipe), conds), world)
      ensures exists n: nat ::
                var f := Run(Program(TasksOf(pipe), conds), world, INIT, n);
                f.Some? && f.value.result == r
    {
      hide Step;
      if pipe == [] {
        assert Run(Program(TasksOf(pipe), conds), world, INIT, 0).Some?;
        return Success(Null, map[]);
      }
      var tasks := ParseTasks(pipe);
      ghost var p := Program(tasks, conds);
      ghost var fuel: nat :| Run(p, world, INIT, fuel).Some?;

      var ctx := new PipelineContext();
      var retries: map<string, nat> := map[];
      var idx: nat := 0;
      var calls: nat := 0;
      ghost var log := INIT.log;
      ghost var left := fuel;

      while idx < |tasks|
        invariant Run(p, world, State(idx, ctx.Snapshot(), retries, calls, log), left)
               == Run(p, world, INIT, fuel)
        decreases left
      {
        ghost var s := State(idx, ctx.Snapshot(), retries, calls, log);
        var halted: Option<RunResult>;
        halted, idx, retries, log := Attempt(tasks, conds, ctx, s, idx, retries, calls);
        if halted.Some? {
          return halted.value;
        }
        calls := calls + 1;
        left := left - 1;
      }
      r := Success(ctx.prev, ctx.results);
    }
  }
}
