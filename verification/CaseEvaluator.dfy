/** Case evaluation: which case blocks of a step fire on an event, and the actions they
    yield. Conditions are rendered by an oracle, which may raise. */
module CaseEvaluator {
  import opened Base

  type Payload = string

  /** One entry of a then block. Its four known keys come first; `tools` are its other
      keys that name a task, in order. */
  datatype Item = NotADict | Item(
    sink: Option<Payload>, retry: Option<Payload>, next: Option<Payload>, setVars: Option<Payload>,
    tools: seq<(string, Payload)>)

  /** A case block. A block with an else key is an else block whatever other keys it has;
      one without else and without a condition is `Ignored`. */
  datatype Case = Ignored | Else(block: seq<Item>) | When(condition: string, block: seq<Item>)

  datatype Kind = Sink | Retry | Next | SetVars | Tool(name: string)

  datatype Action = Action(kind: Kind, config: Payload, caseIndex: nat, triggeredBy: string)

  datatype Match = Match(caseIndex: nat, condition: string, block: seq<Item>, triggeredBy: string)

  type Render = string -> Option<string>

  // ---------------------------------------------------------------------------
  // The actions of a block

  predicate Routes(a: Action) {
    a.kind.Retry? || a.kind.Next?
  }

  function Known(kind: Kind, p: Option<Payload>, idx: nat, event: string): seq<Action> {
    if p.Some? then [Action(kind, p.value, idx, event)] else []
  }

  function ToolActions(tools: seq<(string, Payload)>, idx: nat, event: string): seq<Action> {
    seq(|tools|, k requires 0 <= k < |tools| => Action(Tool(tools[k].0), tools[k].1, idx, event))
  }

  function ItemActions(item: Item, idx: nat, event: string): seq<Action> {
    match item
    case NotADict => []
    case Item(sink, retry, next, setVars, tools) =>
      Known(Sink, sink, idx, event) + Known(Retry, retry, idx, event) + Known(Next, next, idx, event)
      + Known(SetVars, setVars, idx, event) + ToolActions(tools, idx, event)
  }

  function BlockActions(block: seq<Item>, idx: nat, event: string): seq<Action> {
    if block == [] then []
    else BlockActions(block[..|block| - 1], idx, event) + ItemActions(block[|block| - 1], idx, event)
  }

  function FirstRouting(actions: seq<Action>): Option<Action> {
    if actions == [] then None
    else
      var before := FirstRouting(actions[..|actions| - 1]);
      if before.Some? then before
      else if Routes(actions[|actions| - 1]) then Some(actions[|actions| - 1])
      else None
  }

  lemma {:induction false} FirstRoutingOfConcat(a: seq<Action>, b: seq<Action>)
    ensures FirstRouting(a + b) == if FirstRouting(a).Some? then FirstRouting(a) else FirstRouting(b)
    decreases |b|
  {
    if b == [] {
      assert a + b == a;
    } else {
      assert (a + b)[..|a + b| - 1] == a + b[..|b| - 1];
      FirstRoutingOfConcat(a, b[..|b| - 1]);
    }
  }

  lemma FirstRoutingOfOne(a: Action)
    ensures FirstRouting([a]) == if Routes(a) then Some(a) else None
  {
  }

  /** The routing action is the first next or retry of the list. */
  lemma {:induction false} RoutingIsFirst(actions: seq<Action>)
    ensures match FirstRouting(actions)
            case None => forall k | 0 <= k < |actions| :: !Routes(actions[k])
            case Some(a) =>
              exists k :: 0 <= k < |actions| && actions[k] == a && Routes(a) &&
                          forall j | 0 <= j < k :: !Routes(actions[j])
  {
    if actions != [] {
      RoutingIsFirst(actions[..|actions| - 1]);
    }
  }

  // ---------------------------------------------------------------------------
  // The declarative rule: which cases fire

  /** A rendered condition counts as true unless it is blank or a word for false. */
  predicate Holds(render: Render, condition: string) {
    var r := render(condition);
    r.Some? &&
    var text := Lower(Strip(r.value));
    text != "" && text != "false" && text != "0" && text != "no" && text != "none"
  }

  predicate WhenHolds(cases: seq<Case>, render: Render, k: nat) {
    k < |cases| && cases[k].When? && Holds(render, cases[k].condition)
  }

  /** A when-case fires if its condition holds, an else-case if no when-case before it
      does. */
  predicate Fires(cases: seq<Case>, render: Render, k: nat) {
    k < |cases| &&
    (WhenHolds(cases, render, k) || (cases[k].Else? && forall j: nat | j < k :: !WhenHolds(cases, render, j)))
  }

  predicate CaseRoutes(cases: seq<Case>, k: nat, event: string) {
    k < |cases| && !cases[k].Ignored? && FirstRouting(BlockActions(cases[k].block, k, event)).Some?
  }

  /** A when-case that fires ends the evaluation in exclusive mode; otherwise only if it
      is the first firing case that routes. */
  predicate Stops(cases: seq<Case>, render: Render, exclusive: bool, event: string, k: nat) {
    WhenHolds(cases, render, k) &&
    (exclusive ||
     (CaseRoutes(cases, k, event) && forall j: nat | j < k && Fires(cases, render, j) :: !CaseRoutes(cases, j, event)))
  }

  predicate Reached(cases: seq<Case>, render: Render, exclusive: bool, event: string, k: nat) {
    forall j: nat | j < k :: !Stops(cases, render, exclusive, event, j)
  }

  predicate Chosen(cases: seq<Case>, render: Render, exclusive: bool, event: string, k: nat) {
    Reached(cases, render, exclusive, event, k) && Fires(cases, render, k)
  }

  function MatchOf(cases: seq<Case>, k: nat, event: string): Match
    requires k < |cases| && !cases[k].Ignored?
  {
    Match(k, if cases[k].Else? then "else" else cases[k].condition, cases[k].block, event)
  }

  /** The matches among the first `n` cases. */
  function Matches(cases: seq<Case>, render: Render, exclusive: bool, event: string, n: nat): seq<Match>
    requires n <= |cases|
  {
    if n == 0 then []
    else
      Matches(cases, render, exclusive, event, n - 1)
      + (if Chosen(cases, render, exclusive, event, n - 1) then [MatchOf(cases, n - 1, event)] else [])
  }

  /** The actions of those matches, in order. */
  function Actions(cases: seq<Case>, render: Render, exclusive: bool, event: string, n: nat): seq<Action>
    requires n <= |cases|
  {
    if n == 0 then []
    else
      Actions(cases, render, exclusive, event, n - 1)
      + (if Chosen(cases, render, exclusive, event, n - 1) then BlockActions(cases[n - 1].block, n - 1, event) else [])
  }

  predicate ElseChosen(cases: seq<Case>, render: Render, exclusive: bool, event: string, n: nat) {
    exists k: nat :: k < n && k < |cases| && cases[k].Else? && Chosen(cases, render, exclusive, event, k)
  }

  /** Nothing is reached after the case at which evaluation stops. */
  lemma {:induction false} NothingAfterStop(cases: seq<Case>, render: Render, exclusive: bool, event: string,
                                            k: nat, n: nat)
    requires k < n <= |cases| && Stops(cases, render, exclusive, event, k)
    ensures Matches(cases, render, exclusive, event, n) == Matches(cases, render, exclusive, event, k + 1)
    ensures Actions(cases, render, exclusive, event, n) == Actions(cases, render, exclusive, event, k + 1)
    ensures ElseChosen(cases, render, exclusive, event, n) == ElseChosen(cases, render, exclusive, event, k + 1)
  {
    hide Stops, Fires;
    if k + 1 < n {
      NothingAfterStop(cases, render, exclusive, event, k, n - 1);
      assert !Chosen(cases, render, exclusive, event, n - 1);
    }
  }

  /** As long as evaluation goes on, a routing action has been found exactly when some
      case that fired routes. */
  lemma {:induction false} RoutedIff(cases: seq<Case>, render: Render, exclusive: bool, event: string, n: nat)
    requires n <= |cases| && Reached(cases, render, exclusive, event, n)
    ensures FirstRouting(Actions(cases, render, exclusive, event, n)).Some?
       <==> exists j: nat :: j < n && Fires(cases, render, j) && CaseRoutes(cases, j, event)
  {
    hide Stops, Fires, FirstRouting, BlockActions;
    if n > 0 {
      RoutedIff(cases, render, exclusive, event, n - 1);
      FiresIsNotIgnored(cases, render, n - 1);
      FirstRoutingOfConcat(Actions(cases, render, exclusive, event, n - 1),
                           if Chosen(cases, render, exclusive, event, n - 1)
                           then BlockActions(cases[n - 1].block, n - 1, event) else []);
      NothingRoutesNothing();
    } else {
      NothingRoutesNothing();
    }
  }

  lemma FiresIsNotIgnored(cases: seq<Case>, render: Render, k: nat)
    ensures Fires(cases, render, k) ==> k < |cases| && !cases[k].Ignored?
  {
  }

  lemma NothingRoutesNothing()
    ensures FirstRouting([]) == None
  {
  }

  // ---------------------------------------------------------------------------
  // The evaluator

  class CaseEvaluationResult {
    var matches: seq<Match>
    var actions: seq<Action>
    var routingAction: Option<Action>
    var elseMatched: bool

    constructor ()
      ensures matches == [] && actions == [] && routingAction == None && !elseMatched
    {
      matches, actions, routingAction, elseMatched := [], [], None, false;
    }
  }

  class Evaluator {
    const exclusive: bool
    const render: Render

    constructor (caseMode: string, r: Render)
      ensures exclusive == (caseMode == "exclusive") && render == r
    {
      exclusive, render := caseMode == "exclusive", r;
    }

    /** Appends the action of one known key, if the key is there; true when the action
        became the routing action. */
    method AddKnown(kind: Kind, p: Option<Payload>, idx: nat, event: string, result: CaseEvaluationResult)
      returns (isFirst: bool)
      requires result.routingAction == FirstRouting(result.actions)
      modifies result
      ensures result.actions == old(result.actions) + Known(kind, p, idx, event)
      ensures result.routingAction == FirstRouting(result.actions)
      ensures isFirst == (old(result.routingAction).None? && result.routingAction.Some?)
      ensures old(result.routingAction).Some? ==> result.routingAction.Some?
      ensures result.matches == old(result.matches) && result.elseMatched == old(result.elseMatched)
    {
      isFirst := false;
      FirstRoutingOfConcat(result.actions, Known(kind, p, idx, event));
      if p.Some? {
        var a := Action(kind, p.value, idx, event);
        FirstRoutingOfOne(a);
        result.actions := result.actions + [a];
        if Routes(a) && result.routingAction == None {
          result.routingAction := Some(a);
          isFirst := true;
        }
      }
    }

    method ExtractTools(tools: seq<(string, Payload)>, idx: nat, event: string, result: CaseEvaluationResult)
      requires result.routingAction == FirstRouting(result.actions)
      modifies result
      ensures result.actions == old(result.actions) + ToolActions(tools, idx, event)
      ensures result.routingAction == FirstRouting(result.actions) == old(result.routingAction)
      ensures result.matches == old(result.matches) && result.elseMatched == old(result.elseMatched)
    {
      hide FirstRouting;
      ghost var start := result.actions;
      for k := 0 to |tools|
        invariant result.actions == start + ToolActions(tools[..k], idx, event)
        invariant result.routingAction == FirstRouting(result.actions) == old(result.routingAction)
        invariant result.matches == old(result.matches) && result.elseMatched == old(result.elseMatched)
      {
        var a := Action(Tool(tools[k].0), tools[k].1, idx, event);
        FirstRoutingOfConcat(result.actions, [a]);
        FirstRoutingOfOne(a);
        assert ToolActions(tools[..k + 1], idx, event) == ToolActions(tools[..k], idx, event) + [a];
        result.actions := result.actions + [a];
      }
      assert tools[..|tools|] == tools;
    }

    /** Appends the item's actions; true when one of them became the routing action. */
    method ExtractItem(item: Item, idx: nat, event: string, result: CaseEvaluationResult) returns (hasRouting: bool)
      requires result.routingAction == FirstRouting(result.actions)
      modifies result
      ensures result.actions == old(result.actions) + ItemActions(item, idx, event)
      ensures result.routingAction == FirstRouting(result.actions)
      ensures hasRouting == (old(result.routingAction).None? && result.routingAction.Some?)
      ensures old(result.routingAction).Some? ==> result.routingAction.Some?
      ensures result.matches == old(result.matches) && result.elseMatched == old(result.elseMatched)
    {
      hide FirstRouting, Known, ToolActions;
      hasRouting := false;
      match item
      case NotADict =>
      case Item(sink, retry, next, setVars, tools) =>
        var s := AddKnown(Sink, sink, idx, event, result);
        var r := AddKnown(Retry, retry, idx, event, result);
        var n := AddKnown(Next, next, idx, event, result);
        var v := AddKnown(SetVars, setVars, idx, event, result);
        ExtractTools(tools, idx, event, result);
        hasRouting := s || r || n || v;
    }

    method ExtractActions(block: seq<Item>, idx: nat, event: string, result: CaseEvaluationResult)
      returns (hasRouting: bool)
      requires result.routingAction == FirstRouting(result.actions)
      modifies result
      ensures result.actions == old(result.actions) + BlockActions(block, idx, event)
      ensures result.routingAction == FirstRouting(result.actions)
      ensures hasRouting == (old(result.routingAction).None? && result.routingAction.Some?)
      ensures result.matches == old(result.matches) && result.elseMatched == old(result.elseMatched)
    {
      hide ItemActions, FirstRouting;
      hasRouting := false;
      ghost var start := result.actions;
      for k := 0 to |block|
        invariant result.actions == start + BlockActions(block[..k], idx, event)
        invariant result.routingAction == FirstRouting(result.actions)
        invariant hasRouting == (old(result.routingAction).None? && result.routingAction.Some?)
        invariant old(result.routingAction).Some? ==> result.routingAction.Some?
        invariant result.matches == old(result.matches) && result.elseMatched == old(result.elseMatched)
      {
        FirstRoutingOfConcat(result.actions, ItemActions(block[k], idx, event));
        var found := ExtractItem(block[k], idx, event, result);
        hasRouting := hasRouting || found;
        assert block[..k + 1][..k] == block[..k];
      }
      assert block[..|block|] == block;
    }

    method EvaluateCondition(condition: string) returns (matches: bool)
      ensures matches == Holds(render, condition)
    {
      var rendered := render(condition);
      if rendered.None? {
        return false;
      }
      var text := Lower(Strip(rendered.value));
      matches := text != "" && text != "false" && text != "0" && text != "no" && text != "none";
    }

    /** Records case `idx` as a match and extracts its actions. */
    method Fire(cases: seq<Case>, idx: nat, event: string, result: CaseEvaluationResult) returns (hasRouting: bool)
      requires idx < |cases| && !cases[idx].Ignored?
      requires result.routingAction == FirstRouting(result.actions)
      modifies result
      ensures result.matches == old(result.matches) + [MatchOf(cases, idx, event)]
      ensures result.actions == old(result.actions) + BlockActions(cases[idx].block, idx, event)
      ensures result.routingAction == FirstRouting(result.actions)
      ensures hasRouting == (old(result.routingAction).None? && result.routingAction.Some?)
      ensures result.elseMatched == (old(result.elseMatched) || cases[idx].Else?)
    {
      var condition := "else";
      match cases[idx] {
        case Else(_) => result.elseMatched := true;
        case When(c, _) => condition := c;
      }
      result.matches := result.matches + [Match(idx, condition, cases[idx].block, event)];
      hasRouting := ExtractActions(cases[idx].block, idx, event, result);
    }

    /** The result holds what the first `n` cases yield. */
    ghost predicate Yields(result: CaseEvaluationResult, cases: seq<Case>, event: string, n: nat)
      requires n <= |cases|
      reads result
    {
      && result.matches == Matches(cases, render, exclusive, event, n)
      && result.actions == Actions(cases, render, exclusive, event, n)
      && result.routingAction == FirstRouting(result.actions)
      && result.elseMatched == ElseChosen(cases, render, exclusive, event, n)
    }

    /** Looks at one case that is reached; says whether evaluation stops there. */
    method EvaluateCase(cases: seq<Case>, i: nat, event: string, whenMatched: bool, result: CaseEvaluationResult)
      returns (whenMatched': bool, stop: bool)
      requires i < |cases| && Reached(cases, render, exclusive, event, i)
      requires Yields(result, cases, event, i)
      requires whenMatched <==> exists j: nat :: j < i && WhenHolds(cases, render, j)
      modifies result
      ensures Yields(result, cases, event, i + 1)
      ensures whenMatched' <==> exists j: nat :: j < i + 1 && WhenHolds(cases, render, j)
      ensures stop == Stops(cases, render, exclusive, event, i)
    {
      hide BlockActions, FirstRouting, Holds, MatchOf;
      RoutedIff(cases, render, exclusive, event, i);
      whenMatched', stop := whenMatched, false;
      match cases[i] {
        case Ignored =>
        case Else(_) =>
          if !whenMatched {
            assert Fires(cases, render, i);
            var _ := Fire(cases, i, event, result);
          }
        case When(condition, block) =>
          var matches := EvaluateCondition(condition);
          if matches {
            assert WhenHolds(cases, render, i);
            whenMatched' := true;
            FirstRoutingOfConcat(result.actions, BlockActions(block, i, event));
            var hasRouting := Fire(cases, i, event, result);
            stop := exclusive || (hasRouting && result.routingAction.Some?);
          }
      }
    }

    /** Evaluates the cases in order; the result is the one the declarative rule gives. */
    method Evaluate(cases: seq<Case>, event: string) returns (result: CaseEvaluationResult)
      ensures fresh(result)
      ensures result.matches == Matches(cases, render, exclusive, event, |cases|)
      ensures result.actions == Actions(cases, render, exclusive, event, |cases|)
      ensures result.routingAction == FirstRouting(result.actions)
      ensures result.elseMatched == ElseChosen(cases, render, exclusive, event, |cases|)
    {
      hide FirstRouting, Fires, Stops, WhenHolds;
      result := new CaseEvaluationResult();
      NothingRoutesNothing();
      var whenMatched := false;
      for i := 0 to |cases|
        invariant fresh(result)
        invariant Reached(cases, render, exclusive, event, i)
        invariant whenMatched <==> exists j: nat :: j < i && WhenHolds(cases, render, j)
        invariant Yields(result, cases, event, i)
      {
        var stop;
        whenMatched, stop := EvaluateCase(cases, i, event, whenMatched, result);
        if stop {
          NothingAfterStop(cases, render, exclusive, event, i, |cases|);
          return;
        }
      }
    }
  }

  // ---------------------------------------------------------------------------
  // What the rule means

  /** In exclusive mode at most one when-case is chosen, and no case after it. */
  lemma ExclusivePicksOne(cases: seq<Case>, render: Render, event: string, k: nat, m: nat)
    requires k < m && Chosen(cases, render, true, event, k) && cases[k].When?
    ensures !Chosen(cases, render, true, event, m)
  {
    assert Stops(cases, render, true, event, k);
  }

  /** A case before `k` is a chosen else case that routes. */
  predicate ElseRoutedBefore(cases: seq<Case>, render: Render, event: string, k: nat) {
    exists j: nat :: j < k && j < |cases| && cases[j].Else? &&
                     Chosen(cases, render, false, event, j) && CaseRoutes(cases, j, event)
  }

  /** In inclusive mode a when-case that is chosen and routes ends the evaluation, unless
      an else case before it was chosen and routes. With such an else case nothing ends
      the evaluation: whatever comes later is reached. */
  lemma RoutingGoesOnIff(cases: seq<Case>, render: Render, event: string, k: nat, m: nat)
    requires Chosen(cases, render, false, event, k) && cases[k].When? && CaseRoutes(cases, k, event) && k < m
    ensures Reached(cases, render, false, event, m) <==> ElseRoutedBefore(cases, render, event, k)
  {
    if j: nat :| j < k && j < |cases| && cases[j].Else? && Chosen(cases, render, false, event, j)
                 && CaseRoutes(cases, j, event) {
      // After case j no case is the first that routes, and before it none stopped.
      assert forall i: nat | j < i :: !Stops(cases, render, false, event, i);
    } else if j: nat :| j < k && Fires(cases, render, j) && CaseRoutes(cases, j, event) {
      // A routing case before `k` that is no else case: the first of them stops.
      var first := FirstRoutingCase(cases, render, event, j);
      assert cases[first].When? ==> Stops(cases, render, false, event, first);
    } else {
      assert Stops(cases, render, false, event, k);
    }
  }

  lemma {:induction false} FirstRoutingCase(cases: seq<Case>, render: Render, event: string, k: nat)
    returns (first: nat)
    requires Fires(cases, render, k) && CaseRoutes(cases, k, event)
    ensures first <= k && Fires(cases, render, first) && CaseRoutes(cases, first, event)
    ensures forall j: nat | j < first && Fires(cases, render, j) :: !CaseRoutes(cases, j, event)
  {
    if j: nat :| j < k && Fires(cases, render, j) && CaseRoutes(cases, j, event) {
      first := FirstRoutingCase(cases, render, event, j);
    } else {
      first := k;
    }
  }

  /** Some evaluation of these cases matches an else block and a when-case. */
  ghost predicate ElseAndWhen(cases: seq<Case>, exclusive: bool, event: string) {
    exists render: Render, k: nat, m: nat ::
      && k < |cases| && m < |cases| && cases[k].Else? && cases[m].When?
      && Chosen(cases, render, exclusive, event, k) && Chosen(cases, render, exclusive, event, m)
  }

  /** A when-case after an else-case, with a condition no earlier when-case has. */
  predicate LateWhen(cases: seq<Case>, k: nat, m: nat) {
    && k < m < |cases| && cases[k].Else? && cases[m].When?
    && forall j | 0 <= j < k && cases[j].When? :: cases[j].condition != cases[m].condition
  }

  /** The renderer under which one condition holds and no other. */
  function Only(condition: string): Render {
    c => Some(if c == condition then "true" else "")
  }

  /** An else block is not the fallback its name suggests: it looks only at the cases
      before it. A list of cases can match an else block and a when-case in one
      evaluation exactly when a when-case follows an else-case, with a condition of its
      own. */
  lemma ElseIsFallbackIff(cases: seq<Case>, exclusive: bool, event: string)
    ensures ElseAndWhen(cases, exclusive, event) <==> exists k: nat, m: nat :: LateWhen(cases, k, m)
  {
    if k: nat, m: nat :| LateWhen(cases, k, m) {
      LateWhenFires(cases, exclusive, event, k, m);
    }
    if ElseAndWhen(cases, exclusive, event) {
      var render: Render, k: nat, m: nat :|
        && k < |cases| && m < |cases| && cases[k].Else? && cases[m].When?
        && Chosen(cases, render, exclusive, event, k) && Chosen(cases, render, exclusive, event, m);
      assert WhenHolds(cases, render, m);
      forall j | 0 <= j < k && cases[j].When?
        ensures cases[j].condition != cases[m].condition
      {
        assert !WhenHolds(cases, render, j);
      }
      assert LateWhen(cases, k, m);
    }
  }

  lemma OnlyHolds(condition: string, c: string)
    ensures Holds(Only(condition), c) <==> c == condition
  {
    var yes := "true";
    StripTrims(yes);
    StripTrims("");
    assert Lower(yes) == "true";
  }

  lemma LateWhenFires(cases: seq<Case>, exclusive: bool, event: string, k: nat, m: nat)
    requires LateWhen(cases, k, m)
    ensures ElseAndWhen(cases, exclusive, event)
  {
    hide Holds;
    var render := Only(cases[m].condition);
    forall j: nat | j < |cases| && cases[j].When?
      ensures WhenHolds(cases, render, j) <==> cases[j].condition == cases[m].condition
    {
      OnlyHolds(cases[m].condition, cases[j].condition);
    }
    var first := FirstWith(cases, k, m);
    assert forall j: nat | j < first :: !WhenHolds(cases, render, j);
    assert Chosen(cases, render, exclusive, event, k);
    assert Chosen(cases, render, exclusive, event, first);
  }

  /** The first when-case after `k` with the condition of case `m`. */
  lemma {:induction false} FirstWith(cases: seq<Case>, k: nat, m: nat) returns (first: nat)
    requires LateWhen(cases, k, m)
    ensures LateWhen(cases, k, first) && cases[first].condition == cases[m].condition
    ensures forall j | 0 <= j < first && cases[j].When? :: cases[j].condition != cases[m].condition
    decreases m
  {
    if j: nat :| k < j < m && cases[j].When? && cases[j].condition == cases[m].condition {
      first := FirstWith(cases, k, j);
    } else {
      first := m;
    }
  }
}
