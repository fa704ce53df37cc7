/** What the outbox guarantees in every run, and exactly where the guarantees end. */
module OutboxGuarantees {
  import opened Base
  import opened Outbox
  import opened OutboxProtocol

  // ---------------------------------------------------------------------------
  // Ownership and delivery

  /** In every reachable state a row has at most one claimant, its attempts are its
      claims, and it is marked published only after a successful publish. */
  lemma {:induction false} OwnershipAndDelivery(steps: seq<Step>)
    requires Runs(EMPTY, steps)
    ensures var s := Exec(EMPTY, steps);
            && OneClaimant(s)
            && |s.claimedAt| == |s.rows| == |s.delivered|
            && (forall i: nat | i < |s.rows| :: s.rows[i].attempts == |s.claimedAt[i]|)
            && (forall i: nat | i < |s.rows| && s.rows[i].status.Published? :: s.delivered[i] >= 1)
  {
    assert Valid(EMPTY);
    RunKeepsValid(EMPTY, steps);
    var s := Exec(EMPTY, steps);
    forall i: nat | i < |s.rows|
      ensures s.rows[i].attempts == |s.claimedAt[i]|
    {
      assert RowTimes(s.rows[i], s.claimedAt[i], s.now);
    }
  }

  /** The step marks its publisher's first claim failed, whether or not the call then
      raises. */
  predicate MarksFailed(step: Step) {
    step.MarkFailed? || (step.MarkFailedRaises? && step.committed)
  }

  /** A row leaves PUBLISHED in exactly one way: its publisher's mark_published call
      took effect and raised nevertheless, and the publisher now marks the row failed. */
  lemma PublishedLeftIff(s: State, step: Step, i: nat)
    requires Valid(s) && Enabled(s, step) && i < |s.rows| && s.rows[i].status.Published?
    ensures !Next(s, step).rows[i].status.Published? <==> MarksFailed(step) && Doomed(s, step.p, i)
  {
    hide DelaySeconds, Timed, DeliveredFirst;
    if MarksFailed(step) {
      assert Holds(s, step.p, 0, Head(s, step.p).id);
    }
  }

  predicate HidesNoCommit(step: Step) {
    step.MarkPublishedRaises? ==> !step.committed
  }

  /** No publisher is about to undo its own commit. */
  ghost predicate Honest(s: State) {
    forall p: nat | Busy(s, p) :: s.publishers[p].stage != MarkingFailed(true)
  }

  lemma StepKeepsHonest(s: State, step: Step)
    requires Honest(s) && Enabled(s, step) && HidesNoCommit(step)
    ensures Honest(Next(s, step))
  {
    var s' := Next(s, step);
    forall p: nat | Busy(s', p)
      ensures s'.publishers[p].stage != MarkingFailed(true)
    {
      if Busy(s, p) {
        assert s.publishers[p].stage != MarkingFailed(true);
      }
    }
  }

  lemma {:induction false} NoRowLost(s: State, steps: seq<Step>)
    requires Runs(s, steps)
    ensures |s.rows| <= |Exec(s, steps).rows|
    decreases |steps|
  {
    if steps != [] {
      NoRowLost(Next(s, steps[0]), steps[1..]);
    }
  }

  /** When a raising call has no effect, PUBLISHED is never left, over any run. */
  lemma {:induction false} PublishedIsFinal(s: State, steps: seq<Step>, i: nat)
    requires Valid(s) && Honest(s) && Runs(s, steps)
    requires forall k | 0 <= k < |steps| :: HidesNoCommit(steps[k])
    requires i < |s.rows| && s.rows[i].status.Published?
    ensures var t := Exec(s, steps); i < |t.rows| && t.rows[i].status.Published?
    decreases |steps|
  {
    if steps != [] {
      hide Valid, Honest, Enabled, Next;
      var t := Next(s, steps[0]);
      StepKeepsValid(s, steps[0]);
      StepKeepsHonest(s, steps[0]);
      HonestIsNotDoomed(s, steps[0], i);
      PublishedLeftIff(s, steps[0], i);
      assert [steps[0]] + steps[1..] == steps;
      NoRowLost(s, [steps[0]]);
      PublishedIsFinal(t, steps[1..], i);
    }
  }

  lemma HonestIsNotDoomed(s: State, step: Step, i: nat)
    requires Honest(s)
    ensures MarksFailed(step) ==> !Doomed(s, step.p, i)
  {
    if MarksFailed(step) && Doomed(s, step.p, i) {
      assert Busy(s, step.p);
    }
  }

  /** A raising call that did commit breaks this, in every state where a publisher is
      about to mark a row: the row becomes PUBLISHED and then FAILED again, to be
      published once more. */
  lemma HiddenCommitUnpublishes(s: State, p: nat, error: string)
    requires Valid(s) && At(s, p, MarkingPublished)
    ensures var i := Head(s, p).id;
            var t := Next(s, MarkPublishedRaises(p, true));
            && t.rows[i].status.Published? && t.delivered[i] >= 1
            && Enabled(t, MarkFailed(p, error)) && Next(t, MarkFailed(p, error)).rows[i].status.Failed?
  {
    hide Timed, OneClaimant, DelaySeconds;
    assert Holds(s, p, 0, Head(s, p).id);
  }

  lemma {:induction false} NothingToRun(s: State)
    ensures Runs(s, []) && Exec(s, []) == s
  {
  }

  lemma {:induction false} Prepend(s: State, step: Step, rest: seq<Step>)
    requires Enabled(s, step) && Runs(Next(s, step), rest)
    ensures Runs(s, [step] + rest) && Exec(s, [step] + rest) == Exec(Next(s, step), rest)
  {
    assert ([step] + rest)[1..] == rest;
  }

  lemma {:induction false} RunTwo(s: State, a: Step, b: Step)
    requires Enabled(s, a) && Enabled(Next(s, a), b)
    ensures Runs(s, [a, b]) && Exec(s, [a, b]) == Next(Next(s, a), b)
  {
    hide Enabled, Next;
    NothingToRun(Next(Next(s, a), b));
    Prepend(Next(s, a), b, []);
    Prepend(s, a, [b]);
    assert [a] + [b] == [a, b] && [b] + [] == [b];
  }

  lemma {:induction false} RunThree(s: State, a: Step, b: Step, c: Step)
    requires Enabled(s, a) && Enabled(Next(s, a), b) && Enabled(Next(Next(s, a), b), c)
    ensures Runs(s, [a, b, c]) && Exec(s, [a, b, c]) == Next(Next(Next(s, a), b), c)
  {
    hide Enabled, Next;
    RunTwo(Next(s, a), b, c);
    assert [a, b, c][1..] == [b, c];
  }

  // ---------------------------------------------------------------------------
  // A publisher's batch is a run

  /** The steps by which a publisher settles its first claim. */
  function StepsFor(p: nat, fate: Fate): seq<Step> {
    match fate
    case Delivered => [PublishReturns(p), MarkPublished(p)]
    case PublishRaised(error) => [PublishRaises(p), MarkFailed(p, error)]
    case MarkRaised(error, committed) =>
      [PublishReturns(p), MarkPublishedRaises(p, committed), MarkFailed(p, error)]
  }

  /** Settling one claim in the batch method is a run of the protocol: it sets the row the
      method sets, touches no other row and turns the publisher to its next claim. */
  lemma {:induction false} PublishOneIsRun(s: State, p: nat, fate: Fate)
    requires At(s, p, Publishing)
    ensures Runs(s, StepsFor(p, fate))
    ensures var c := Head(s, p);
            var t := Exec(s, StepsFor(p, fate));
            && t.rows == s.rows[c.id := SettledRow(s.rows[c.id], s.now, c.attempts, fate)]
            && t.publishers == s.publishers[p := Publisher(Publishing, s.publishers[p].todo[1..])]
            && t.now == s.now
  {
    hide Runs, Exec, PublishedRow, FailedRow, Bump;
    match fate
    case Delivered => RunTwo(s, PublishReturns(p), MarkPublished(p));
    case PublishRaised(error) => RunTwo(s, PublishRaises(p), MarkFailed(p, error));
    case MarkRaised(error, committed) =>
      RunThree(s, PublishReturns(p), MarkPublishedRaises(p, committed), MarkFailed(p, error));
  }

  /** The steps by which it gives up at its first claim: marking the failure raises. */
  function StepsToGiveUp(p: nat, fate: Fate, hidden: bool): seq<Step> {
    match fate
    case Delivered => []
    case PublishRaised(error) => [PublishRaises(p), MarkFailedRaises(p, error, hidden)]
    case MarkRaised(error, committed) =>
      [PublishReturns(p), MarkPublishedRaises(p, committed), MarkFailedRaises(p, error, hidden)]
  }

  lemma {:induction false} GiveUpIsRun(s: State, p: nat, fate: Fate, hidden: bool)
    requires At(s, p, Publishing) && !fate.Delivered?
    ensures Runs(s, StepsToGiveUp(p, fate, hidden))
    ensures var c := Head(s, p);
            var t := Exec(s, StepsToGiveUp(p, fate, hidden));
            && t.rows == s.rows[c.id := StoppedRow(s.rows[c.id], s.now, c.attempts, fate, Raises(hidden))]
            && t.publishers == s.publishers[p := Publisher(Publishing, [])] && t.now == s.now
  {
    hide Runs, Exec, PublishedRow, FailedRow, Bump;
    match fate
    case PublishRaised(error) => RunTwo(s, PublishRaises(p), MarkFailedRaises(p, error, hidden));
    case MarkRaised(error, committed) =>
      RunThree(s, PublishReturns(p), MarkPublishedRaises(p, committed), MarkFailedRaises(p, error, hidden));
  }

  /** The steps of a batch from its `k`-th claim on, when marking the failure of claim
      `stop` raises, or nothing does and `stop` is the number of claims. */
  function StepsFrom(p: nat, fates: nat -> Fate, answers: nat -> Answer, k: nat, stop: nat, n: nat): seq<Step>
    decreases stop - k
  {
    if k < stop then StepsFor(p, fates(k)) + StepsFrom(p, fates, answers, k + 1, stop, n)
    else if k < n then StepsToGiveUp(p, fates(k), answers(k) == Raises(true))
    else []
  }

  lemma {:induction false} RunsOfConcat(s: State, a: seq<Step>, b: seq<Step>)
    requires Runs(s, a) && Runs(Exec(s, a), b)
    ensures Runs(s, a + b) && Exec(s, a + b) == Exec(Exec(s, a), b)
    decreases |a|
  {
    hide Enabled, Next;
    if a == [] {
      assert a + b == b;
    } else {
      assert (a + b)[1..] == a[1..] + b;
      RunsOfConcat(Next(s, a[0]), a[1..], b);
    }
  }

  /** The publisher has settled the first `k` claims of its batch and holds the others. */
  ghost predicate SettledUpTo(s: State, p: nat, rows: seq<Row>, ids: seq<nat>, fates: nat -> Fate, k: nat) {
    && p < |s.publishers| && k <= |ids|
    && (forall a | 0 <= a < |ids| :: ids[a] < |rows|)
    && (forall a, b | 0 <= a < |ids| && 0 <= b < |ids| && a != b :: ids[a] != ids[b])
    && s.publishers[p] == Publisher(Publishing, ClaimsOf(rows, ids)[k..])
    && s.rows == SettleFirst(rows, ids, fates, s.now, k)
  }

  lemma {:induction false} SettlingGoesOn(s: State, p: nat, rows: seq<Row>, ids: seq<nat>, fates: nat -> Fate, k: nat)
    requires SettledUpTo(s, p, rows, ids, fates, k) && k < |ids|
    ensures At(s, p, Publishing) && Head(s, p) == Claim(ids[k], rows[ids[k]].attempts)
    ensures Runs(s, StepsFor(p, fates(k)))
    ensures var t := Exec(s, StepsFor(p, fates(k)));
            && SettledUpTo(t, p, rows, ids, fates, k + 1) && t.now == s.now
            && t.publishers == s.publishers[p := t.publishers[p]]
  {
    hide StepsFor, SettledRow, SettleFirst, Runs, Exec;
    SettleOneMore(rows, ids, fates, s.now, k);
    PublishOneIsRun(s, p, fates(k));
    assert ClaimsOf(rows, ids)[k..][1..] == ClaimsOf(rows, ids)[k + 1..];
  }

  lemma {:induction false} SettlingIsRun(s: State, p: nat, rows: seq<Row>, ids: seq<nat>, fates: nat -> Fate,
                                         answers: nat -> Answer, k: nat, stop: nat)
    requires SettledUpTo(s, p, rows, ids, fates, k) && k <= stop <= |ids|
    requires stop < |ids| ==> !fates(stop).Delivered? && answers(stop).Raises?
    ensures Runs(s, StepsFrom(p, fates, answers, k, stop, |ids|))
    ensures var t := Exec(s, StepsFrom(p, fates, answers, k, stop, |ids|));
            && t.rows == BatchRows(rows, ids, fates, answers, s.now, stop) && t.now == s.now
            && t.publishers == s.publishers[p := Publisher(Publishing, [])]
    decreases stop - k
  {
    hide SettleFirst, StepsFor, StepsToGiveUp, StoppedRow;
    if k < stop {
      hide SettledUpTo, Runs, Exec, BatchRows;
      SettlingGoesOn(s, p, rows, ids, fates, k);
      var t := Exec(s, StepsFor(p, fates(k)));
      SettlingIsRun(t, p, rows, ids, fates, answers, k + 1, stop);
      RunsOfConcat(s, StepsFor(p, fates(k)), StepsFrom(p, fates, answers, k + 1, stop, |ids|));
    } else if k < |ids| {
      SettlingGoesOn(s, p, rows, ids, fates, k);
      SettleOneMore(rows, ids, fates, s.now, k);
      GiveUpIsRun(s, p, fates(k), answers(k) == Raises(true));
    } else {
      assert s.publishers[p].todo == [];
    }
  }

  /** A whole batch is a run of the protocol: an idle publisher that claims the rows the
      batch method selects, and goes through their fates in turn, leaves the table the
      method leaves and is idle again. */
  lemma {:induction false} PublishBatchIsRun(s: State, p: nat, locked: set<nat>, ids: seq<nat>, limit: nat,
                                             fates: nat -> Fate, answers: nat -> Answer, stop: nat)
    requires p < |s.publishers| && s.publishers[p].todo == []
    requires FirstReady(s.rows, s.now, locked, ids, limit, |s.rows|)
    requires stop <= |ids| && (stop < |ids| ==> !fates(stop).Delivered? && answers(stop).Raises?)
    ensures var steps := [ClaimBatch(p, ids)] + StepsFrom(p, fates, answers, 0, stop, |ids|);
            && Runs(s, steps)
            && var t := Exec(s, steps);
               && t.rows == BatchRows(ClaimRows(s.rows, ids), ids, fates, answers, s.now, stop)
               && t.publishers == s.publishers[p := Publisher(Publishing, [])] && t.now == s.now
  {
    hide FirstReady, SettleFirst, BatchRows, StepsFrom, Runs, Exec, Ready;
    ReadyToClaim(s, p, locked, ids, limit);
    IdsDistinct(s.rows, s.now, locked, ids, limit, |s.rows|);
    var claimed := Next(s, ClaimBatch(p, ids));
    NoneSettled(claimed.rows, ids, fates, s.now);
    assert ClaimsOf(claimed.rows, ids)[0..] == ClaimsOf(claimed.rows, ids);
    SettlingIsRun(claimed, p, claimed.rows, ids, fates, answers, 0, stop);
    Prepend(s, ClaimBatch(p, ids), StepsFrom(p, fates, answers, 0, stop, |ids|));
  }

  lemma ReadyToClaim(s: State, p: nat, locked: set<nat>, ids: seq<nat>, limit: nat)
    requires p < |s.publishers| && s.publishers[p].todo == []
    requires FirstReady(s.rows, s.now, locked, ids, limit, |s.rows|)
    ensures Enabled(s, ClaimBatch(p, ids))
  {
  }

  // ---------------------------------------------------------------------------
  // Retry spacing

  /** The least time between a row's first claim and its n-th. */
  function Spacing(n: nat): nat {
    if n == 0 then 0 else if n <= 10 then Pow2(n - 1) - 1 else 511 + 256 * (n - 10)
  }

  lemma SpacingGrows(n: nat)
    requires n >= 1
    ensures Spacing(n + 1) == Spacing(n) + DelaySeconds(n)
  {
    assert Pow2(0) == 1 && Pow2(1) == 2 && Pow2(2) == 4 && Pow2(3) == 8 && Pow2(4) == 16;
    assert Pow2(5) == 32 && Pow2(6) == 64 && Pow2(7) == 128 && Pow2(8) == 256 && Pow2(9) == 512;
  }

  lemma {:induction false} SpacedAddsUp(times: seq<real>, n: nat)
    requires Spaced(times) && 1 <= n <= |times|
    ensures times[n - 1] - times[0] >= Spacing(n) as real
  {
    if n > 1 {
      SpacedAddsUp(times, n - 1);
      SpacingGrows(n - 1);
      assert times[(n - 2) + 1] - times[n - 2] >= DelaySeconds(n - 1) as real;
    }
  }

  /** Over any run, a row's n-th claim comes at least 2^(n-1) - 1 seconds after its
      first, and 511 + 256 * (n - 10) seconds from the tenth claim on. */
  lemma {:induction false} RetrySpacing(steps: seq<Step>, i: nat, n: nat)
    requires Runs(EMPTY, steps) && i < |Exec(EMPTY, steps).rows|
    requires 1 <= n <= Exec(EMPTY, steps).rows[i].attempts
    ensures var times := Exec(EMPTY, steps).claimedAt;
            i < |times| && n <= |times[i]| && times[i][n - 1] - times[i][0] >= Spacing(n) as real
  {
    assert Valid(EMPTY);
    RunKeepsValid(EMPTY, steps);
    var s := Exec(EMPTY, steps);
    assert RowTimes(s.rows[i], s.claimedAt[i], s.now);
    SpacedAddsUp(s.claimedAt[i], n);
  }

  // ---------------------------------------------------------------------------
  // Which rows can still be published

  /** In flight, with no publisher left that holds it. */
  ghost predicate Orphan(s: State, i: nat) {
    i < |s.rows| && s.rows[i].status.InFlight? && forall p: nat, k: nat :: !Holds(s, p, k, i)
  }

  ghost predicate CanPublish(s: State, i: nat) {
    exists steps :: Runs(s, steps) && i < |Exec(s, steps).rows| && Exec(s, steps).rows[i].status.Published?
  }

  /** No step touches an orphan. */
  lemma StepKeepsOrphan(s: State, step: Step, i: nat)
    requires Valid(s) && Enabled(s, step) && Orphan(s, i)
    ensures var t := Next(s, step);
            Orphan(t, i) && i < |s.delivered| && i < |t.delivered| && t.delivered[i] == s.delivered[i]
  {
    hide DelaySeconds, Timed, Conflicts;
    var t := Next(s, step);
    if step.PublishReturns? || step.MarkPublished? || step.MarkPublishedRaises? || step.MarkFailed?
       || step.MarkFailedRaises? {
      assert Holds(s, step.p, 0, Head(s, step.p).id);
      assert Head(s, step.p).id != i;
    }
    forall p: nat, k: nat
      ensures !Holds(t, p, k, i)
    {
      if Holds(t, p, k, i) {
        HeldBefore(s, step, p, k, i);
      }
    }
  }

  /** A held claim was held before, or is of the batch just claimed. */
  lemma HeldBefore(s: State, step: Step, p: nat, k: nat, i: nat)
    requires Enabled(s, step) && Holds(Next(s, step), p, k, i)
    ensures (step.ClaimBatch? && i < |s.rows| && Ready(s.rows[i], s.now)) || exists k': nat :: Holds(s, p, k', i)
  {
    hide DelaySeconds, Conflicts;
    if step.ClaimBatch? && step.p == p {
      assert Ready(s.rows[step.ids[k]], s.now);
    } else {
      assert Holds(s, p, if (step.MarkPublished? || step.MarkFailed?) && step.p == p then k + 1 else k, i);
    }
  }

  lemma {:induction false} OrphanForever(s: State, steps: seq<Step>, i: nat)
    requires Valid(s) && Runs(s, steps) && Orphan(s, i)
    ensures var t := Exec(s, steps);
            Orphan(t, i) && i < |s.delivered| && i < |t.delivered| && t.delivered[i] == s.delivered[i]
    decreases |steps|
  {
    if steps != [] {
      hide Valid, Orphan, Enabled, Next;
      StepKeepsOrphan(s, steps[0], i);
      StepKeepsValid(s, steps[0]);
      OrphanForever(Next(s, steps[0]), steps[1..], i);
    }
  }

  /** A new publisher claims and publishes a ready row. */
  lemma {:induction false} PublishByNewPublisher(s: State, i: nat)
    requires i < |s.rows| && Ready(s.rows[i], s.now)
    ensures var p := |s.publishers|;
            var steps := [Start] + [ClaimBatch(p, [i]), PublishReturns(p), MarkPublished(p)];
            Runs(s, steps) && i < |Exec(s, steps).rows| && Exec(s, steps).rows[i].status.Published?
  {
    hide Runs, Exec, Bump, Stamp;
    var p := |s.publishers|;
    var s1 := Next(s, Start);
    var s2 := Next(s1, ClaimBatch(p, [i]));
    assert s2.publishers[p].todo[0].id == i;
    RunThree(s1, ClaimBatch(p, [i]), PublishReturns(p), MarkPublished(p));
    Prepend(s, Start, [ClaimBatch(p, [i]), PublishReturns(p), MarkPublished(p)]);
  }

  lemma PublishReady(s: State, i: nat) returns (steps: seq<Step>)
    requires i < |s.rows| && (s.rows[i].status.Pending? || s.rows[i].status.Failed?)
    ensures Runs(s, steps) && i < |Exec(s, steps).rows| && Exec(s, steps).rows[i].status.Published?
  {
    hide Runs, Exec;
    var wait := Pass(MaxReal(s.rows[i].availableAt - s.now, 0.0));
    var p := |s.publishers|;
    PublishByNewPublisher(Next(s, wait), i);
    Prepend(s, wait, [Start] + [ClaimBatch(p, [i]), PublishReturns(p), MarkPublished(p)]);
    steps := [wait] + ([Start] + [ClaimBatch(p, [i]), PublishReturns(p), MarkPublished(p)]);
  }

  /** What the publisher does next for its first claim, if nothing fails. */
  function Onward(s: State, p: nat): Step
    requires Busy(s, p)
  {
    match s.publishers[p].stage
    case Publishing => PublishReturns(p)
    case MarkingPublished => MarkPublished(p)
    case MarkingFailed(_) => MarkFailed(p, "")
  }

  lemma OnwardMoves(s: State, p: nat, k: nat, i: nat)
    requires Valid(s) && Holds(s, p, k, i)
    ensures Enabled(s, Onward(s, p))
    ensures var t := Next(s, Onward(s, p));
            && i < |t.rows|
            && (s.publishers[p].stage.Publishing? ==> Holds(t, p, k, i) && t.publishers[p].stage.MarkingPublished?)
            && (!s.publishers[p].stage.Publishing? && k > 0 ==>
                  Holds(t, p, k - 1, i) && t.publishers[p].stage.Publishing?)
            && (s.publishers[p].stage.MarkingPublished? && k == 0 ==> t.rows[i].status.Published?)
            && (s.publishers[p].stage.MarkingFailed? && k == 0 ==> t.rows[i].status.Failed?)
  {
    hide DelaySeconds, Timed, DeliveredFirst;
    assert Holds(s, p, 0, Head(s, p).id);
  }

  lemma {:induction false} PublishHeld(s: State, p: nat, k: nat, i: nat) returns (steps: seq<Step>)
    requires Valid(s) && Holds(s, p, k, i)
    ensures Runs(s, steps) && i < |Exec(s, steps).rows| && Exec(s, steps).rows[i].status.Published?
    decreases k, if s.publishers[p].stage.Publishing? then 1 else 0
  {
    hide Valid, Enabled, Next, Runs, Exec;
    OnwardMoves(s, p, k, i);
    var step := Onward(s, p);
    var t := Next(s, step);
    StepKeepsValid(s, step);
    var rest: seq<Step>;
    if s.publishers[p].stage.Publishing? {
      rest := PublishHeld(t, p, k, i);
    } else if k > 0 {
      rest := PublishHeld(t, p, k - 1, i);
    } else if s.publishers[p].stage.MarkingPublished? {
      rest := [];
      NothingToRun(t);
    } else {
      rest := PublishReady(t, i);
    }
    Prepend(s, step, rest);
    steps := [step] + rest;
  }

  /** At-least-once, exactly: from a reachable state a row can still be marked published
      if and only if it is not an orphan. An orphan's event is not delivered again. */
  lemma PublishableIff(s: State, i: nat)
    requires Valid(s) && i < |s.rows|
    ensures CanPublish(s, i) <==> !Orphan(s, i)
  {
    hide Valid, Runs, Exec;
    if Orphan(s, i) {
      forall steps | Runs(s, steps)
        ensures Orphan(Exec(s, steps), i)
      {
        OrphanForever(s, steps, i);
      }
    } else if s.rows[i].status.Published? {
      NothingToRun(s);
      assert Exec(s, []).rows[i].status.Published?;
    } else if s.rows[i].status.InFlight? {
      var p: nat, k: nat :| Holds(s, p, k, i);
      var steps := PublishHeld(s, p, k, i);
      assert Exec(s, steps).rows[i].status.Published?;
    } else {
      var steps := PublishReady(s, i);
      assert Exec(s, steps).rows[i].status.Published?;
    }
  }

  /** Rows become orphans only when their publisher dies, or stops because marking a
      failure raised, before it settled them. A call that raised but took effect settled
      its own row. */
  lemma OrphanedIff(s: State, step: Step, i: nat)
    requires Valid(s) && Enabled(s, step) && i < |s.rows| && !Orphan(s, i)
    ensures Orphan(Next(s, step), i) <==>
            (step.Crash? || step.MarkFailedRaises?) && s.rows[i].status.InFlight? &&
            exists k: nat :: Holds(s, step.p, k, i) && !(k == 0 && MarksFailed(step))
  {
    hide DelaySeconds, Timed, DeliveredFirst, Conflicts;
    var t := Next(s, step);
    if step.Crash? || step.MarkFailedRaises? {
      forall q: nat, k: nat | q != step.p
        ensures Holds(t, q, k, i) <==> Holds(s, q, k, i)
      {
      }
      forall k: nat
        ensures !Holds(t, step.p, k, i)
      {
      }
      if step.MarkFailedRaises? {
        assert Holds(s, step.p, 0, Head(s, step.p).id);
      }
    } else if Orphan(t, i) {
      StillHeld(s, step, i);
    }
  }

  lemma StillHeld(s: State, step: Step, i: nat)
    requires Valid(s) && Enabled(s, step) && i < |s.rows| && !Orphan(s, i)
    requires !step.Crash? && !step.MarkFailedRaises?
    ensures !Orphan(Next(s, step), i)
  {
    hide DelaySeconds, Timed, DeliveredFirst, Conflicts;
    var t := Next(s, step);
    if s.rows[i].status.InFlight? {
      var p: nat, k: nat :| Holds(s, p, k, i);
      if (step.MarkPublished? || step.MarkFailed?) && step.p == p {
        if k > 0 {
          assert Holds(t, p, k - 1, i);
        }
      } else {
        assert Holds(t, p, k, i);
      }
    } else if step.ClaimBatch? && i in step.ids {
      var a :| 0 <= a < |step.ids| && step.ids[a] == i;
      assert Holds(t, step.p, a, i);
    } else if step.MarkPublished? || step.MarkFailed? || step.MarkPublishedRaises? {
      assert Holds(s, step.p, 0, Head(s, step.p).id);
    }
  }
}
