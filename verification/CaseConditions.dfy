/** What case evaluation answers to rendered conditions, and the shape of what it returns. */
module CaseConditions {
  import opened Base
  import opened CaseEvaluator

  // ---------------------------------------------------------------------------
  // Conditions

  predicate WordForNo(word: string) {
    word == "" || word == "false" || word == "0" || word == "no" || word == "none"
  }

  /** A blank text, or a word for false in any casing, with any spaces around it. */
  ghost predicate SaysNo(text: string) {
    exists word, core :: WordForNo(word) && CasingOf(core, word) && Padded(text, core)
  }

  lemma CasingIsTrimmed(core: string, word: string)
    requires CasingOf(core, word) && WordForNo(word)
    ensures Trimmed(core)
  {
    if core != "" {
      assert core[0] == word[0] || core[0] as int + 32 == word[0] as int;
      assert core[|core| - 1] == word[|word| - 1] || core[|core| - 1] as int + 32 == word[|word| - 1] as int;
    }
  }

  lemma WordIff(text: string, word: string)
    requires WordForNo(word)
    ensures Lower(Strip(text)) == word <==> exists core :: CasingOf(core, word) && Padded(text, core)
  {
    hide Strip, Lower, WordForNo;
    StripTrims(text);
    StripIff(text, Strip(text));
    NoUpperCase(word);
    LowerIff(Strip(text), word);
    forall core | CasingOf(core, word) && Padded(text, core)
      ensures core == Strip(text)
    {
      CasingIsTrimmed(core, word);
      StripIff(text, core);
    }
  }

  lemma NoUpperCase(word: string)
    requires WordForNo(word)
    ensures forall i | 0 <= i < |word| :: !('A' <= word[i] <= 'Z')
  {
  }

  /** A condition holds exactly when it renders to a text that does not say no. */
  lemma HoldsIff(render: Render, condition: string)
    ensures Holds(render, condition) <==> render(condition).Some? && !SaysNo(render(condition).value)
  {
    hide Strip, Lower, CasingOf, Padded;
    if render(condition).Some? {
      var text := render(condition).value;
      WordIff(text, "");
      WordIff(text, "false");
      WordIff(text, "0");
      WordIff(text, "no");
      WordIff(text, "none");
      if Holds(render, condition) {
        assert !SaysNo(text);
      } else {
        var word := Lower(Strip(text));
        assert WordForNo(word);
        WordIff(text, word);
      }
    }
  }

  ghost predicate HasCase(matches: seq<Match>, k: nat) {
    exists m | m in matches :: m.caseIndex == k
  }

  lemma HasCaseOneMore(matches: seq<Match>, last: Match, k: nat)
    ensures HasCase(matches + [last], k) <==> HasCase(matches, k) || last.caseIndex == k
  {
    assert last in matches + [last];
    assert forall m | m in matches :: m in matches + [last];
  }

  ghost predicate Matched(cases: seq<Case>, render: Render, exclusive: bool, event: string, k: nat) {
    HasCase(Matches(cases, render, exclusive, event, |cases|), k)
  }

  lemma MatchesOneMore(cases: seq<Case>, render: Render, exclusive: bool, event: string, n: nat)
    requires n < |cases|
    ensures Chosen(cases, render, exclusive, event, n) ==> !cases[n].Ignored?
    ensures Matches(cases, render, exclusive, event, n + 1) ==
            if Chosen(cases, render, exclusive, event, n)
            then Matches(cases, render, exclusive, event, n) + [MatchOf(cases, n, event)]
            else Matches(cases, render, exclusive, event, n)
  {
    hide Reached, MatchOf;
    assert Matches(cases, render, exclusive, event, n) + [] == Matches(cases, render, exclusive, event, n);
  }

  lemma {:induction false} MatchesAreChosen(cases: seq<Case>, render: Render, exclusive: bool, event: string,
                                            n: nat, k: nat)
    requires n <= |cases|
    ensures HasCase(Matches(cases, render, exclusive, event, n), k) <==>
            k < n && Chosen(cases, render, exclusive, event, k)
  {
    if n == 0 {
      assert Matches(cases, render, exclusive, event, n) == [];
    } else {
      hide Chosen, Matches, HasCase;
      MatchesAreChosen(cases, render, exclusive, event, n - 1, k);
      MatchesOneMore(cases, render, exclusive, event, n - 1);
      if Chosen(cases, render, exclusive, event, n - 1) {
        HasCaseOneMore(Matches(cases, render, exclusive, event, n - 1), MatchOf(cases, n - 1, event), k);
      }
    }
  }

  /** The texts of its condition decide whether a when-case that is reached is matched. */
  lemma WhenMatchedIff(cases: seq<Case>, render: Render, exclusive: bool, event: string, k: nat)
    requires k < |cases| && cases[k].When? && Reached(cases, render, exclusive, event, k)
    ensures Matched(cases, render, exclusive, event, k) <==>
            var r := render(cases[k].condition); r.Some? && !SaysNo(r.value)
  {
    hide Matches, Reached, Holds, SaysNo;
    MatchesAreChosen(cases, render, exclusive, event, |cases|, k);
    HoldsIff(render, cases[k].condition);
  }

  /** An else-case that is reached is matched exactly when every condition before it fails
      to render or says no. */
  lemma ElseMatchedIff(cases: seq<Case>, render: Render, exclusive: bool, event: string, k: nat)
    requires k < |cases| && cases[k].Else? && Reached(cases, render, exclusive, event, k)
    ensures Matched(cases, render, exclusive, event, k) <==>
            forall j: nat | j < k && cases[j].When? ::
              var r := render(cases[j].condition); r.None? || SaysNo(r.value)
  {
    hide Matches, Reached, Holds, SaysNo;
    MatchesAreChosen(cases, render, exclusive, event, |cases|, k);
    forall j: nat | j < k && cases[j].When?
      ensures WhenHolds(cases, render, j) <==>
              !(var r := render(cases[j].condition); r.None? || SaysNo(r.value))
    {
      HoldsIff(render, cases[j].condition);
    }
  }

  /** When every condition raises or says no, the else-cases are matched, all of them, and
      no other case is. */
  lemma OnlyElseMatched(cases: seq<Case>, render: Render, exclusive: bool, event: string, k: nat)
    requires forall j | 0 <= j < |cases| && cases[j].When? ::
               var r := render(cases[j].condition); r.None? || SaysNo(r.value)
    ensures Matched(cases, render, exclusive, event, k) <==> k < |cases| && cases[k].Else?
  {
    hide Matches, Holds, SaysNo;
    MatchesAreChosen(cases, render, exclusive, event, |cases|, k);
    forall j: nat
      ensures !WhenHolds(cases, render, j)
    {
      if j < |cases| && cases[j].When? {
        HoldsIff(render, cases[j].condition);
      }
    }
    assert Reached(cases, render, exclusive, event, k);
  }

  /** In inclusive mode a when-case that is matched and does not route lets the evaluation
      go on. */
  lemma {:induction false} PlainMatchGoesOn(cases: seq<Case>, render: Render, event: string, k: nat)
    requires Chosen(cases, render, false, event, k)
    requires forall a | a in BlockActions(cases[k].block, k, event) :: !(a.kind.Retry? || a.kind.Next?)
    ensures Reached(cases, render, false, event, k + 1)
  {
    RoutingIsFirst(BlockActions(cases[k].block, k, event));
  }

  /** The routing action is the first retry or next among the actions. */
  lemma {:induction false} RoutingIsRetryOrNext(actions: seq<Action>)
    ensures match FirstRouting(actions)
            case None => forall k | 0 <= k < |actions| :: !(actions[k].kind.Retry? || actions[k].kind.Next?)
            case Some(a) =>
              exists k :: 0 <= k < |actions| && actions[k] == a && (a.kind.Retry? || a.kind.Next?) &&
                          forall j | 0 <= j < k :: !(actions[j].kind.Retry? || actions[j].kind.Next?)
  {
    RoutingIsFirst(actions);
  }

  // ---------------------------------------------------------------------------
  // What is returned

  ghost predicate MatchOfCase(cases: seq<Case>, event: string, m: Match, n: nat) {
    && m.caseIndex < n && m.caseIndex < |cases| && !cases[m.caseIndex].Ignored?
    && m.block == cases[m.caseIndex].block && m.triggeredBy == event
    && m.condition == (match cases[m.caseIndex] case When(condition, _) => condition case _ => "else")
  }

  ghost predicate InOrder(cases: seq<Case>, event: string, ms: seq<Match>, n: nat) {
    && (forall i | 0 <= i < |ms| :: MatchOfCase(cases, event, ms[i], n))
    && (forall i, j | 0 <= i < j < |ms| :: ms[i].caseIndex < ms[j].caseIndex)
  }

  lemma EmptyInOrder(cases: seq<Case>, event: string)
    ensures InOrder(cases, event, [], 0)
  {
  }

  lemma InOrderOneMore(cases: seq<Case>, event: string, ms: seq<Match>, n: nat)
    requires InOrder(cases, event, ms, n) && n < |cases|
    ensures InOrder(cases, event, ms, n + 1)
    ensures !cases[n].Ignored? ==> InOrder(cases, event, ms + [MatchOf(cases, n, event)], n + 1)
  {
  }

  /** The matches are in the order of the cases, each with its case's condition and block. */
  lemma {:induction false} MatchesInOrder(cases: seq<Case>, render: Render, exclusive: bool, event: string, n: nat)
    requires n <= |cases|
    ensures InOrder(cases, event, Matches(cases, render, exclusive, event, n), n)
  {
    hide Chosen, Matches, InOrder, MatchOf;
    if n == 0 {
      NoMatches(cases, render, exclusive, event);
      EmptyInOrder(cases, event);
    } else {
      MatchesInOrder(cases, render, exclusive, event, n - 1);
      MatchesOneMore(cases, render, exclusive, event, n - 1);
      InOrderOneMore(cases, event, Matches(cases, render, exclusive, event, n - 1), n - 1);
    }
  }

  /** The actions of the matches, one block after the other. */
  function ActionsOf(matches: seq<Match>): seq<Action> {
    if matches == [] then []
    else
      var last := matches[|matches| - 1];
      ActionsOf(matches[..|matches| - 1]) + BlockActions(last.block, last.caseIndex, last.triggeredBy)
  }

  lemma {:induction false} ActionsAreOfMatches(cases: seq<Case>, render: Render, exclusive: bool, event: string, n: nat)
    requires n <= |cases|
    ensures Actions(cases, render, exclusive, event, n) == ActionsOf(Matches(cases, render, exclusive, event, n))
  {
    hide Chosen, BlockActions, Matches;
    if n == 0 {
      NoMatches(cases, render, exclusive, event);
    } else {
      ActionsAreOfMatches(cases, render, exclusive, event, n - 1);
      MatchesOneMore(cases, render, exclusive, event, n - 1);
      var before := Matches(cases, render, exclusive, event, n - 1);
      if Chosen(cases, render, exclusive, event, n - 1) {
        assert (before + [MatchOf(cases, n - 1, event)])[..|before|] == before;
      }
    }
  }

  lemma {:induction false} NoMatches(cases: seq<Case>, render: Render, exclusive: bool, event: string)
    ensures Matches(cases, render, exclusive, event, 0) == []
  {
  }

  function Place(kind: Kind): nat {
    match kind
    case Sink => 0
    case Retry => 1
    case Next => 2
    case SetVars => 3
    case Tool(_) => 4
  }

  function Present(p: Option<Payload>): nat {
    if p.Some? then 1 else 0
  }

  /** Actions marked with the case and the event, of kinds between two places and in the
      order of the places. */
  predicate Placed(actions: seq<Action>, lo: nat, hi: nat, idx: nat, event: string) {
    && (forall i | 0 <= i < |actions| ::
          actions[i].caseIndex == idx && actions[i].triggeredBy == event && lo <= Place(actions[i].kind) <= hi)
    && (forall i, j | 0 <= i < j < |actions| :: Place(actions[i].kind) <= Place(actions[j].kind))
  }

  lemma PlacedConcat(a: seq<Action>, b: seq<Action>, lo: nat, mid: nat, hi: nat, idx: nat, event: string)
    requires Placed(a, lo, mid, idx, event) && Placed(b, mid, hi, idx, event) && lo <= mid <= hi
    ensures Placed(a + b, lo, hi, idx, event)
  {
    hide Place;
  }

  lemma KnownPlaced(kind: Kind, p: Option<Payload>, idx: nat, event: string)
    ensures var known := Known(kind, p, idx, event);
            && Placed(known, Place(kind), Place(kind), idx, event) && |known| == Present(p)
            && (p.Some? ==> known == [Action(kind, p.value, idx, event)])
  {
  }

  lemma ToolsPlaced(tools: seq<(string, Payload)>, idx: nat, event: string)
    ensures var actions := ToolActions(tools, idx, event);
            && Placed(actions, 4, 4, idx, event) && |actions| == |tools|
            && forall k | 0 <= k < |tools| :: actions[k] == Action(Tool(tools[k].0), tools[k].1, idx, event)
  {
  }

  /** The actions of the known keys of an item. */
  function KnownActions(item: Item, idx: nat, event: string): seq<Action>
    requires item.Item?
  {
    Known(Sink, item.sink, idx, event) + Known(Retry, item.retry, idx, event) + Known(Next, item.next, idx, event)
    + Known(SetVars, item.setVars, idx, event)
  }

  lemma KnownInOrder(item: Item, idx: nat, event: string)
    requires item.Item?
    ensures var known := KnownActions(item, idx, event);
            && |known| == Present(item.sink) + Present(item.retry) + Present(item.next) + Present(item.setVars)
            && Placed(known, 0, 3, idx, event)
  {
    hide Known, Placed, Present;
    var sink := Known(Sink, item.sink, idx, event);
    var retry := Known(Retry, item.retry, idx, event);
    var next := Known(Next, item.next, idx, event);
    var setVars := Known(SetVars, item.setVars, idx, event);
    KnownPlaced(Sink, item.sink, idx, event);
    KnownPlaced(Retry, item.retry, idx, event);
    KnownPlaced(Next, item.next, idx, event);
    KnownPlaced(SetVars, item.setVars, idx, event);
    PlacesWiden(retry, 1, 1, 0, 1, idx, event);
    PlacesWiden(next, 2, 2, 1, 2, idx, event);
    PlacesWiden(setVars, 3, 3, 2, 3, idx, event);
    PlacedConcat(sink, retry, 0, 0, 1, idx, event);
    PlacedConcat(sink + retry, next, 0, 1, 2, idx, event);
    PlacedConcat(sink + retry + next, setVars, 0, 2, 3, idx, event);
  }

  lemma KnownThere(item: Item, idx: nat, event: string)
    requires item.Item?
    ensures var known := KnownActions(item, idx, event);
            && (item.sink.Some? ==> Action(Sink, item.sink.value, idx, event) in known)
            && (item.retry.Some? ==> Action(Retry, item.retry.value, idx, event) in known)
            && (item.next.Some? ==> Action(Next, item.next.value, idx, event) in known)
            && (item.setVars.Some? ==> Action(SetVars, item.setVars.value, idx, event) in known)
  {
  }

  /** The last actions are those of the tools, in order. */
  predicate EndsWithTools(actions: seq<Action>, tools: seq<(string, Payload)>, idx: nat, event: string) {
    && |tools| <= |actions|
    && var known := |actions| - |tools|;
       forall k | known <= k < |actions| ::
         actions[k] == Action(Tool(tools[k - known].0), tools[k - known].1, idx, event)
  }

  lemma ToolsAtEnd(known: seq<Action>, tools: seq<(string, Payload)>, idx: nat, event: string)
    ensures EndsWithTools(known + ToolActions(tools, idx, event), tools, idx, event)
  {
  }

  /** An item yields one action for each of its known keys that is there, in the order sink,
      retry, next, set, with that key's configuration, and then its tools in their own order;
      all are marked with the case and the event. */
  lemma ItemActionsInOrder(item: Item, idx: nat, event: string)
    requires item.Item?
    ensures var actions := ItemActions(item, idx, event);
            && |actions| == Present(item.sink) + Present(item.retry) + Present(item.next) + Present(item.setVars)
                            + |item.tools|
            && Placed(actions, 0, 4, idx, event)
            && (item.sink.Some? ==> Action(Sink, item.sink.value, idx, event) in actions)
            && (item.retry.Some? ==> Action(Retry, item.retry.value, idx, event) in actions)
            && (item.next.Some? ==> Action(Next, item.next.value, idx, event) in actions)
            && (item.setVars.Some? ==> Action(SetVars, item.setVars.value, idx, event) in actions)
            && EndsWithTools(actions, item.tools, idx, event)
  {
    hide *;
    var known, tools := KnownActions(item, idx, event), ToolActions(item.tools, idx, event);
    KnownThenTools(item, idx, event);
    KnownInOrder(item, idx, event);
    KnownThere(item, idx, event);
    ToolsPlaced(item.tools, idx, event);
    PlacesWiden(tools, 4, 4, 3, 4, idx, event);
    PlacedConcat(known, tools, 0, 3, 4, idx, event);
    ToolsAtEnd(known, item.tools, idx, event);
  }

  lemma KnownThenTools(item: Item, idx: nat, event: string)
    requires item.Item?
    ensures ItemActions(item, idx, event) == KnownActions(item, idx, event) + ToolActions(item.tools, idx, event)
  {
    hide Known, ToolActions;
  }

  lemma PlacesWiden(actions: seq<Action>, lo: nat, hi: nat, lower: nat, higher: nat, idx: nat, event: string)
    requires Placed(actions, lo, hi, idx, event) && lower <= lo && hi <= higher
    ensures Placed(actions, lower, higher, idx, event)
  {
    hide Place;
  }

  /** Items that are not dictionaries yield nothing, and the items of a block yield their
      actions one after the other. */
  lemma {:induction false} BlocksConcat(a: seq<Item>, b: seq<Item>, idx: nat, event: string)
    ensures BlockActions(a + b, idx, event) == BlockActions(a, idx, event) + BlockActions(b, idx, event)
    ensures BlockActions([NotADict], idx, event) == []
    decreases |b|
  {
    hide ItemActions;
    assert BlockActions([], idx, event) == [];
    OneItem(NotADict, idx, event);
    if b == [] {
      assert a + b == a;
    } else {
      assert (a + b)[..|a + b| - 1] == a + b[..|b| - 1];
      BlocksConcat(a, b[..|b| - 1], idx, event);
    }
  }

  lemma {:induction false} OneItem(item: Item, idx: nat, event: string)
    ensures BlockActions([item], idx, event) == ItemActions(item, idx, event)
    ensures item.NotADict? ==> ItemActions(item, idx, event) == []
  {
    assert [item][..0] == [];
  }
}
