/** The outbox under any number of concurrent publishers.

    Each statement and each publish is one atomic step. A publisher may crash at any
    point, a call that marks a row may raise, and may then have taken effect or not. A
    claim that takes effect and raises is a claim whose publisher then crashes. A publish
    that raises is no delivery, whether or not the event went out. */
module OutboxProtocol {
  import opened Base
  import opened Outbox

  /** What the publisher does next for the first claim it holds. `Marking failed`
      remembers whether the mark_published call that raised took effect after all. */
  datatype Stage = Publishing | MarkingPublished | MarkingFailed(committed: bool)

  /** The claims a publisher still has to settle; none when it is idle. */
  datatype Publisher = Publisher(stage: Stage, todo: seq<Claim>)

  /** `claimedAt` and `delivered` record, for each row, when it was claimed and how often
      its event was published successfully. */
  datatype State = State(
    now: real, rows: seq<Row>, publishers: seq<Publisher>,
    claimedAt: seq<seq<real>>, delivered: seq<nat>)

  datatype Step =
    | Enqueue(execution: Option<int>, event: int)
    | Start
    | ClaimBatch(p: nat, ids: seq<nat>)
    | PublishReturns(p: nat)
    | PublishRaises(p: nat)
    | MarkPublished(p: nat)
    | MarkPublishedRaises(p: nat, committed: bool)
    | MarkFailed(p: nat, error: string)
    | MarkFailedRaises(p: nat, error: string, committed: bool)
    | Crash(p: nat)
    | Pass(dt: real)

  predicate Busy(s: State, p: nat) {
    p < |s.publishers| && s.publishers[p].todo != []
  }

  predicate At(s: State, p: nat, stage: Stage) {
    Busy(s, p) && s.publishers[p].stage == stage && Head(s, p).id < |s.rows|
  }

  function Head(s: State, p: nat): Claim
    requires Busy(s, p)
  {
    s.publishers[p].todo[0]
  }

  /** Whether the step can be taken; any ready rows may be claimed, since rows locked by
      other claims are skipped. */
  predicate Enabled(s: State, step: Step) {
    match step
    case Enqueue(_, _) => true
    case Start => true
    case ClaimBatch(p, ids) =>
      && p < |s.publishers| && s.publishers[p].todo == []
      && (forall a | 0 <= a < |ids| :: ids[a] < |s.rows| && Ready(s.rows[ids[a]], s.now))
      && (forall a, b | 0 <= a < b < |ids| :: ids[a] != ids[b])
    case PublishReturns(p) => At(s, p, Publishing)
    case PublishRaises(p) => At(s, p, Publishing)
    case MarkPublished(p) => At(s, p, MarkingPublished)
    case MarkPublishedRaises(p, _) => At(s, p, MarkingPublished)
    case MarkFailed(p, _) => Busy(s, p) && s.publishers[p].stage.MarkingFailed? && Head(s, p).id < |s.rows|
    case MarkFailedRaises(p, _, _) => Busy(s, p) && s.publishers[p].stage.MarkingFailed? && Head(s, p).id < |s.rows|
    case Crash(p) => p < |s.publishers|
    case Pass(dt) => dt >= 0.0
  }

  function WithStage(s: State, p: nat, stage: Stage): State
    requires Busy(s, p)
  {
    s.(publishers := s.publishers[p := s.publishers[p].(stage := stage)])
  }

  /** The publisher turns to its next claim. */
  function Settle(s: State, p: nat): State
    requires Busy(s, p)
  {
    s.(publishers := s.publishers[p := Publisher(Publishing, s.publishers[p].todo[1..])])
  }

  function Abandon(s: State, p: nat): State
    requires p < |s.publishers|
  {
    s.(publishers := s.publishers[p := Publisher(Publishing, [])])
  }

  function ClaimsOf(rows: seq<Row>, ids: seq<nat>): seq<Claim> {
    seq(|ids|, a requires 0 <= a < |ids| =>
          Claim(ids[a], if ids[a] < |rows| then rows[ids[a]].attempts else 0))
  }

  function Stamp(claimedAt: seq<seq<real>>, ids: seq<nat>, now: real): seq<seq<real>> {
    seq(|claimedAt|, i requires 0 <= i < |claimedAt| => if i in ids then claimedAt[i] + [now] else claimedAt[i])
  }

  function Bump(delivered: seq<nat>, id: nat): seq<nat> {
    if id < |delivered| then delivered[id := delivered[id] + 1] else delivered
  }

  function Next(s: State, step: Step): State
    requires Enabled(s, step)
  {
    match step
    case Enqueue(execution, event) =>
      if Conflicts(s.rows, execution, event) then s
      else s.(rows := Enqueued(s.rows, execution, event, s.now),
              claimedAt := s.claimedAt + [[]], delivered := s.delivered + [0])
    case Start => s.(publishers := s.publishers + [Publisher(Publishing, [])])
    case ClaimBatch(p, ids) =>
      var rows := ClaimRows(s.rows, ids);
      s.(rows := rows, publishers := s.publishers[p := Publisher(Publishing, ClaimsOf(rows, ids))],
         claimedAt := Stamp(s.claimedAt, ids, s.now))
    case PublishReturns(p) =>
      WithStage(s, p, MarkingPublished).(delivered := Bump(s.delivered, Head(s, p).id))
    case PublishRaises(p) => WithStage(s, p, MarkingFailed(false))
    case MarkPublished(p) =>
      var id := Head(s, p).id;
      Settle(s, p).(rows := s.rows[id := PublishedRow(s.rows[id], s.now)])
    case MarkPublishedRaises(p, committed) =>
      var id := Head(s, p).id;
      WithStage(s, p, MarkingFailed(committed)).(
        rows := if committed then s.rows[id := PublishedRow(s.rows[id], s.now)] else s.rows)
    case MarkFailed(p, error) =>
      var c := Head(s, p);
      Settle(s, p).(rows := s.rows[c.id := FailedRow(s.rows[c.id], s.now, c.attempts, error)])
    case MarkFailedRaises(p, error, committed) =>
      var c := Head(s, p);
      Abandon(s, p).(
        rows := if committed then s.rows[c.id := FailedRow(s.rows[c.id], s.now, c.attempts, error)] else s.rows)
    case Crash(p) => Abandon(s, p)
    case Pass(dt) => s.(now := s.now + dt)
  }

  /** A run: every step is enabled where it is taken. */
  predicate Runs(s: State, steps: seq<Step>)
    decreases |steps|
  {
    steps == [] || (Enabled(s, steps[0]) && Runs(Next(s, steps[0]), steps[1..]))
  }

  function Exec(s: State, steps: seq<Step>): State
    requires Runs(s, steps)
    decreases |steps|
  {
    if steps == [] then s else Exec(Next(s, steps[0]), steps[1..])
  }

  const EMPTY := State(0.0, [], [], [], [])

  // ---------------------------------------------------------------------------
  // The invariant

  /** Claim `k` of publisher `p`. */
  ghost predicate Holds(s: State, p: nat, k: nat, id: nat) {
    p < |s.publishers| && k < |s.publishers[p].todo| && s.publishers[p].todo[k].id == id
  }

  /** The publisher is about to mark as failed a row that its own raising call published. */
  ghost predicate Doomed(s: State, p: nat, id: nat) {
    Holds(s, p, 0, id) && s.publishers[p].stage == MarkingFailed(true)
  }

  /** Nobody holds two claims on a row, in one batch or in two. */
  ghost predicate OneClaimant(s: State) {
    forall p: nat, k: nat, q: nat, l: nat, id: nat | Holds(s, p, k, id) && Holds(s, q, l, id) :: p == q && k == l
  }

  /** A held claim matches its row. */
  ghost predicate ClaimsMatch(s: State) {
    forall p: nat, k: nat, id: nat | Holds(s, p, k, id) ::
      && id < |s.rows|
      && s.publishers[p].todo[k].attempts == s.rows[id].attempts
      && (if k == 0 && s.publishers[p].stage == MarkingFailed(true) then s.rows[id].status.Published?
          else s.rows[id].status.InFlight?)
  }

  /** Successive claims of a row are as far apart as the retry delay asks. */
  ghost predicate Spaced(times: seq<real>) {
    forall n: nat | n + 1 < |times| :: times[n + 1] - times[n] >= DelaySeconds(n + 1) as real
  }

  ghost predicate RowTimes(row: Row, times: seq<real>, now: real) {
    && row.attempts == |times| && Spaced(times)
    && (row.status.Pending? <==> times == [])
    && (times != [] ==> times[|times| - 1] <= now)
    && (row.status.Failed? ==> row.availableAt >= times[|times| - 1] + DelaySeconds(|times|) as real)
  }

  ghost predicate Timed(s: State) {
    && |s.claimedAt| == |s.rows|
    && forall i: nat | i < |s.rows| :: RowTimes(s.rows[i], s.claimedAt[i], s.now)
  }

  /** Whatever is, or is about to be, marked published was delivered. */
  ghost predicate DeliveredFirst(s: State) {
    && |s.delivered| == |s.rows|
    && (forall i: nat | i < |s.rows| && s.rows[i].status.Published? :: s.delivered[i] >= 1)
    && (forall p: nat, id: nat | Holds(s, p, 0, id) && s.publishers[p].stage.MarkingPublished? ::
          id < |s.delivered| && s.delivered[id] >= 1)
  }

  ghost predicate Valid(s: State) {
    OneClaimant(s) && ClaimsMatch(s) && Timed(s) && DeliveredFirst(s)
  }

  /** A claim's rows are ready, so nobody else holds them. */
  lemma ClaimKeepsOwnership(s: State, p: nat, ids: seq<nat>)
    requires OneClaimant(s) && ClaimsMatch(s) && Enabled(s, ClaimBatch(p, ids))
    ensures OneClaimant(Next(s, ClaimBatch(p, ids))) && ClaimsMatch(Next(s, ClaimBatch(p, ids)))
  {
    var s' := Next(s, ClaimBatch(p, ids));
    forall q: nat, k: nat, id: nat | Holds(s', q, k, id)
      ensures q != p ==> Holds(s, q, k, id) && id !in ids
      ensures q == p ==> k < |ids| && ids[k] == id && id in ids
    {
      if q != p {
        assert Holds(s, q, k, id);
      }
    }
  }

  /** A ready row that is claimed was last claimed long enough ago. */
  lemma ClaimedRowTimes(row: Row, times: seq<real>, now: real)
    requires RowTimes(row, times, now) && Ready(row, now)
    ensures RowTimes(ClaimedRow(row), times + [now], now)
  {
    hide DelaySeconds;
  }

  lemma ClaimKeepsTimed(s: State, p: nat, ids: seq<nat>)
    requires Timed(s) && Enabled(s, ClaimBatch(p, ids))
    ensures Timed(Next(s, ClaimBatch(p, ids)))
  {
    hide RowTimes, Ready, ClaimedRow;
    var s' := Next(s, ClaimBatch(p, ids));
    forall i: nat | i < |s'.rows|
      ensures RowTimes(s'.rows[i], s'.claimedAt[i], s'.now)
    {
      if i in ids {
        var a :| 0 <= a < |ids| && ids[a] == i;
        ClaimedRowTimes(s.rows[ids[a]], s.claimedAt[i], s.now);
      }
    }
  }

  lemma ClaimKeepsDelivered(s: State, p: nat, ids: seq<nat>)
    requires DeliveredFirst(s) && Enabled(s, ClaimBatch(p, ids))
    ensures DeliveredFirst(Next(s, ClaimBatch(p, ids)))
  {
    hide Stamp;
    var s' := Next(s, ClaimBatch(p, ids));
    forall q: nat, id: nat | Holds(s', q, 0, id) && s'.publishers[q].stage.MarkingPublished?
      ensures id < |s'.delivered| && s'.delivered[id] >= 1
    {
      assert Holds(s, q, 0, id);
    }
  }

  /** Each step but a claim leaves a publisher with a part of the claims it had. */
  lemma StepKeepsOwnership(s: State, step: Step)
    requires OneClaimant(s) && ClaimsMatch(s) && Enabled(s, step) && !step.ClaimBatch?
    ensures OneClaimant(Next(s, step)) && ClaimsMatch(Next(s, step))
  {
    hide DelaySeconds, Conflicts;
    var s' := Next(s, step);
    var settles := step.MarkPublished? || step.MarkFailed?;
    forall q: nat, k: nat, id: nat | Holds(s', q, k, id)
      ensures Holds(s, q, if settles && q == step.p then k + 1 else k, id)
    {
    }
    if settles || step.MarkPublishedRaises? || step.MarkFailedRaises? {
      assert Holds(s, step.p, 0, Head(s, step.p).id);
    }
  }

  lemma StepKeepsTimed(s: State, step: Step)
    requires ClaimsMatch(s) && Timed(s) && Enabled(s, step) && !step.ClaimBatch?
    ensures Timed(Next(s, step))
  {
    hide DelaySeconds, Conflicts;
    var s' := Next(s, step);
    if step.MarkPublished? || step.MarkPublishedRaises? || step.MarkFailed? || step.MarkFailedRaises? {
      assert Holds(s, step.p, 0, Head(s, step.p).id);
    }
    forall i: nat | i < |s'.rows|
      ensures RowTimes(s'.rows[i], s'.claimedAt[i], s'.now)
    {
      if i < |s.rows| {
        assert RowTimes(s.rows[i], s.claimedAt[i], s.now);
      }
    }
  }

  lemma StepKeepsDelivered(s: State, step: Step)
    requires ClaimsMatch(s) && DeliveredFirst(s) && Enabled(s, step) && !step.ClaimBatch?
    ensures DeliveredFirst(Next(s, step))
  {
    hide DelaySeconds, Conflicts;
    var s' := Next(s, step);
    forall q: nat, id: nat | Holds(s', q, 0, id) && s'.publishers[q].stage.MarkingPublished?
      ensures id < |s'.delivered| && s'.delivered[id] >= 1
    {
      assert Holds(s, q, 0, id);
    }
    if step.MarkPublished? || step.MarkPublishedRaises? {
      assert Holds(s, step.p, 0, Head(s, step.p).id);
    }
  }

  lemma StepKeepsValid(s: State, step: Step)
    requires Valid(s) && Enabled(s, step)
    ensures Valid(Next(s, step))
  {
    hide Next, Enabled, OneClaimant, ClaimsMatch, Timed, DeliveredFirst;
    if step.ClaimBatch? {
      ClaimKeepsOwnership(s, step.p, step.ids);
      ClaimKeepsTimed(s, step.p, step.ids);
      ClaimKeepsDelivered(s, step.p, step.ids);
    } else {
      StepKeepsOwnership(s, step);
      StepKeepsTimed(s, step);
      StepKeepsDelivered(s, step);
    }
  }

  lemma {:induction false} RunKeepsValid(s: State, steps: seq<Step>)
    requires Valid(s) && Runs(s, steps)
    ensures Valid(Exec(s, steps))
    decreases |steps|
  {
    hide Valid;
    if steps != [] {
      StepKeepsValid(s, steps[0]);
      RunKeepsValid(Next(s, steps[0]), steps[1..]);
    }
  }

  // ---------------------------------------------------------------------------
  // No duplicates, over any run

  lemma StepKeepsNoDuplicates(s: State, step: Step)
    requires Enabled(s, step) && NoDuplicates(s.rows)
    ensures NoDuplicates(Next(s, step).rows)
  {
    hide Conflicts, Enqueued, NoDuplicates;
    var rows := Next(s, step).rows;
    if step.Enqueue? {
      EnqueueKeepsNoDuplicates(s.rows, step.execution, step.event, s.now);
    } else {
      SameEvents(s.rows, rows);
    }
  }

  /** Whatever else a step does to rows, they keep their execution and event. */
  lemma SameEvents(rows: seq<Row>, rows': seq<Row>)
    requires NoDuplicates(rows) && |rows| == |rows'|
    requires forall i | 0 <= i < |rows| :: rows[i].execution == rows'[i].execution && rows[i].event == rows'[i].event
    ensures NoDuplicates(rows')
  {
  }

  /** In every reachable state no two rows hold the same event of the same execution. */
  lemma {:induction false} RunKeepsNoDuplicates(s: State, steps: seq<Step>)
    requires Runs(s, steps) && NoDuplicates(s.rows)
    ensures NoDuplicates(Exec(s, steps).rows)
    decreases |steps|
  {
    hide Next, Enabled, NoDuplicates;
    if steps != [] {
      StepKeepsNoDuplicates(s, steps[0]);
      RunKeepsNoDuplicates(Next(s, steps[0]), steps[1..]);
    }
  }
}
