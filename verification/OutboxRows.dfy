/** What the outbox statements write into a row, and how soon a failed row comes back. */
module OutboxRows {
  import opened Base
  import opened Outbox
  import opened OutboxProtocol
  import opened OutboxGuarantees

  // ---------------------------------------------------------------------------
  // Enqueueing

  ghost predicate Holding(rows: seq<Row>, execution: Option<int>, event: int) {
    exists i | 0 <= i < |rows| :: rows[i].execution == execution && rows[i].event == event
  }

  /** An event is added unless it has an execution and the table holds it for that
      execution already. The new row was never tried and may be claimed at once. */
  lemma EnqueueAddsIff(rows: seq<Row>, execution: Option<int>, event: int, now: real)
    ensures var after := Enqueued(rows, execution, event, now);
            if execution.Some? && Holding(rows, execution, event) then after == rows
            else
              && |after| == |rows| + 1 && after[..|rows|] == rows
              && var row := after[|rows|];
                 && row.execution == execution && row.event == event
                 && row.status.Pending? && row.attempts == 0 && row.publishedAt.None? && row.lastError.None?
                 && forall u :: Ready(row, u) <==> u >= now
  {
  }

  lemma StepKeepsEvents(s: State, step: Step, execution: Option<int>, event: int)
    requires Enabled(s, step)
    ensures Holding(s.rows, execution, event) || step == Enqueue(execution, event) ==>
              Holding(Next(s, step).rows, execution, event)
  {
    hide DelaySeconds;
    var rows := Next(s, step).rows;
    assert forall i | 0 <= i < |s.rows| ::
        i < |rows| && rows[i].execution == s.rows[i].execution && rows[i].event == s.rows[i].event;
    if step == Enqueue(execution, event) && !Conflicts(s.rows, execution, event) {
      assert rows[|s.rows|].execution == execution && rows[|s.rows|].event == event;
    }
  }

  /** No event is lost: in every run, what was enqueued stays in the table. */
  lemma {:induction false} EveryEventIsKept(s: State, steps: seq<Step>, execution: Option<int>, event: int)
    requires Runs(s, steps)
    requires Holding(s.rows, execution, event) || Enqueue(execution, event) in steps
    ensures Holding(Exec(s, steps).rows, execution, event)
    decreases |steps|
  {
    hide Holding, Enabled, Next;
    if steps != [] {
      StepKeepsEvents(s, steps[0], execution, event);
      assert steps == [steps[0]] + steps[1..];
      EveryEventIsKept(Next(s, steps[0]), steps[1..], execution, event);
    }
  }

  /** A claim sets the status of the rows it takes and counts one attempt more for each; it
      changes nothing else. */
  lemma ClaimSetsStatus(s: State, p: nat, ids: seq<nat>, i: nat)
    requires Enabled(s, ClaimBatch(p, ids)) && i < |s.rows|
    ensures var row := s.rows[i];
            Next(s, ClaimBatch(p, ids)).rows[i] ==
              if i in ids then Row(row.execution, row.event, InFlight, row.attempts + 1,
                                   row.availableAt, row.publishedAt, row.lastError)
              else row
  {
  }

  // ---------------------------------------------------------------------------
  // Marking

  /** Everything but the status, the times and the error. */
  predicate SameClaims(row: Row, row': Row) {
    row.execution == row'.execution && row.event == row'.event && row.attempts == row'.attempts
  }

  /** Seconds until a row that failed after its n-th claim may be claimed again. */
  function Wait(n: nat): nat {
    if n >= 9 then 256 else if n == 8 then 128 else if n == 7 then 64 else if n == 6 then 32
    else if n == 5 then 16 else if n == 4 then 8 else if n == 3 then 4 else if n == 2 then 2 else 1
  }

  lemma DelayIsWait(n: nat)
    ensures DelaySeconds(n) == Wait(n)
  {
    assert Pow2(0) == 1 && Pow2(1) == 2 && Pow2(2) == 4 && Pow2(3) == 8 && Pow2(4) == 16;
    assert Pow2(5) == 32 && Pow2(6) == 64 && Pow2(7) == 128 && Pow2(8) == 256;
  }

  /** A row marked failed after its n-th claim is claimable again exactly from 2^(n-1)
      seconds later on, 256 from the ninth claim on; it keeps the first 2000 characters of
      the error. */
  lemma FailedRowComesBack(s: State, p: nat, error: string)
    requires Valid(s) && Enabled(s, MarkFailed(p, error))
    ensures var id := Head(s, p).id;
            var before, after := s.rows[id], Next(s, MarkFailed(p, error)).rows[id];
            && after.status.Failed? && SameClaims(before, after) && after.publishedAt == before.publishedAt
            && after.lastError == Some(if |error| <= 2000 then error else error[..2000])
            && forall u :: Ready(after, u) <==> u >= s.now + Wait(before.attempts) as real
  {
    hide DelaySeconds, Timed, DeliveredFirst, OneClaimant;
    var c := Head(s, p);
    assert Holds(s, p, 0, c.id);
    assert c.attempts == s.rows[c.id].attempts;
    assert Next(s, MarkFailed(p, error)).rows[c.id] == FailedRow(s.rows[c.id], s.now, c.attempts, error);
    DelayIsWait(c.attempts);
    assert |error| <= 2000 ==> error[..Min(2000, |error|)] == error;
  }

  /** A row marked published carries the time, and no error; it can be claimed no more. */
  lemma PublishedRowIsDone(s: State, p: nat)
    requires Enabled(s, MarkPublished(p))
    ensures var id := Head(s, p).id;
            var before, after := s.rows[id], Next(s, MarkPublished(p)).rows[id];
            && after.status.Published? && SameClaims(before, after)
            && after.publishedAt == Some(s.now) && after.lastError.None?
            && forall u :: !Ready(after, u)
  {
  }

  /** A pending row was never published and has no error; a published one has the time it
      was, in the past, and no error; a failed one has an error of at most 2000 characters. */
  predicate WellMarked(row: Row, now: real) {
    && (row.status.Pending? ==> row.publishedAt.None? && row.lastError.None? && row.attempts == 0)
    && (row.status.Published? ==> row.publishedAt.Some? && row.lastError.None?)
    && (row.status.Failed? ==> row.lastError.Some? && |row.lastError.value| <= 2000)
    && (row.publishedAt.Some? ==> row.publishedAt.value <= now)
  }

  ghost predicate AllWellMarked(s: State) {
    forall i | 0 <= i < |s.rows| :: WellMarked(s.rows[i], s.now)
  }

  lemma StepKeepsWellMarked(s: State, step: Step)
    requires Enabled(s, step) && AllWellMarked(s)
    ensures AllWellMarked(Next(s, step))
  {
    hide DelaySeconds, Conflicts;
    var t := Next(s, step);
    forall i | 0 <= i < |t.rows|
      ensures WellMarked(t.rows[i], t.now)
    {
      assert i < |s.rows| ==> WellMarked(s.rows[i], s.now);
    }
  }

  /** In every reachable state. */
  lemma {:induction false} RunKeepsWellMarked(s: State, steps: seq<Step>)
    requires Runs(s, steps) && AllWellMarked(s)
    ensures AllWellMarked(Exec(s, steps))
    decreases |steps|
  {
    hide AllWellMarked, Enabled, Next;
    if steps != [] {
      StepKeepsWellMarked(s, steps[0]);
      RunKeepsWellMarked(Next(s, steps[0]), steps[1..]);
    }
  }

  /** The number of rows a batch reports is the number of claims whose event was published
      and marked. */
  lemma {:induction false} DeliveredCountIsCardinality(fates: nat -> Fate, k: nat)
    ensures DeliveredCount(fates, k) == |set a: nat | a < k && fates(a).Delivered?|
  {
    if k > 0 {
      DeliveredCountIsCardinality(fates, k - 1);
      var before, now := set a: nat | a < k - 1 && fates(a).Delivered?, set a: nat | a < k && fates(a).Delivered?;
      if fates(k - 1).Delivered? {
        assert now == before + {k - 1};
      } else {
        assert now == before;
      }
    }
  }

  // ---------------------------------------------------------------------------
  // The records are those of the run

  /** How often a run publishes row `i` successfully. */
  ghost function PublishesIn(s: State, steps: seq<Step>, i: nat): nat
    requires Runs(s, steps)
    decreases |steps|
  {
    if steps == [] then 0
    else
      (if steps[0].PublishReturns? && Head(s, steps[0].p).id == i then 1 else 0)
      + PublishesIn(Next(s, steps[0]), steps[1..], i)
  }

  /** When a run claims row `i`. */
  ghost function ClaimsIn(s: State, steps: seq<Step>, i: nat): seq<real>
    requires Runs(s, steps)
    decreases |steps|
  {
    if steps == [] then []
    else
      (if steps[0].ClaimBatch? && i in steps[0].ids then [s.now] else [])
      + ClaimsIn(Next(s, steps[0]), steps[1..], i)
  }

  lemma StepRecords(s: State, step: Step, i: nat)
    requires Enabled(s, step) && |s.claimedAt| == |s.delivered| == |s.rows|
    ensures var t := Next(s, step);
            && |t.claimedAt| == |t.delivered| == |t.rows| >= |s.rows|
            && (i < |t.rows| ==>
                  && t.delivered[i] == (if i < |s.rows| then s.delivered[i] else 0)
                                       + (if step.PublishReturns? && Head(s, step.p).id == i then 1 else 0)
                  && t.claimedAt[i] == (if i < |s.rows| then s.claimedAt[i] else [])
                                       + (if step.ClaimBatch? && i in step.ids then [s.now] else []))
            && (i >= |s.rows| ==>
                  !(step.PublishReturns? && Head(s, step.p).id == i) && !(step.ClaimBatch? && i in step.ids))
  {
    hide DelaySeconds, Conflicts, Ready;
  }

  /** What a state records of a row's publishes and claims is what the run did. */
  lemma {:induction false} RecordsAreOfRun(s: State, steps: seq<Step>, i: nat)
    requires Runs(s, steps) && |s.claimedAt| == |s.delivered| == |s.rows|
    ensures var t := Exec(s, steps);
            && |t.claimedAt| == |t.delivered| == |t.rows| >= |s.rows|
            && (i < |t.rows| ==>
                  && t.delivered[i] == (if i < |s.rows| then s.delivered[i] else 0) + PublishesIn(s, steps, i)
                  && t.claimedAt[i] == (if i < |s.rows| then s.claimedAt[i] else []) + ClaimsIn(s, steps, i))
    decreases |steps|
  {
    hide Enabled, Next;
    if steps != [] {
      var next := Next(s, steps[0]);
      StepRecords(s, steps[0], i);
      RecordsAreOfRun(next, steps[1..], i);
    }
  }

  // ---------------------------------------------------------------------------
  // The retry spacing is tight

  /** The one row has just been claimed for the n-th time, by publisher 0, as soon as it
      could be each time. */
  ghost predicate Tight(s: State, n: nat) {
    && n >= 1 && |s.rows| == 1 && |s.claimedAt| == 1 && |s.publishers| == 1
    && s.publishers[0] == Publisher(Publishing, [Claim(0, n)])
    && s.rows[0].status.InFlight? && s.rows[0].attempts == n
    && |s.claimedAt[0]| == n && s.claimedAt[0][n - 1] == s.now
    && s.claimedAt[0][n - 1] - s.claimedAt[0][0] == Spacing(n) as real
  }

  function FirstClaim(): seq<Step> {
    [Enqueue(None, 0), Start, ClaimBatch(0, [0])]
  }

  lemma FirstClaimIsTight()
    ensures Runs(EMPTY, FirstClaim()) && Tight(Exec(EMPTY, FirstClaim()), 1)
  {
    hide Runs, Exec;
    var s1 := Next(EMPTY, Enqueue(None, 0));
    var s2 := Next(s1, Start);
    assert Ready(s2.rows[0], s2.now);
    RunThree(EMPTY, Enqueue(None, 0), Start, ClaimBatch(0, [0]));
  }

  /** It fails, and is claimed the moment it comes back. */
  function ClaimAgain(n: nat): seq<Step> {
    [PublishRaises(0)] + [MarkFailed(0, ""), Pass(DelaySeconds(n) as real), ClaimBatch(0, [0])]
  }

  lemma {:induction false} ClaimAgainIsTight(s: State, n: nat)
    requires Tight(s, n)
    ensures Runs(s, ClaimAgain(n)) && Tight(Exec(s, ClaimAgain(n)), n + 1)
  {
    hide Runs, Exec, DelaySeconds, Spacing;
    var s1 := Next(s, PublishRaises(0));
    var s2 := Next(s1, MarkFailed(0, ""));
    var s3 := Next(s2, Pass(DelaySeconds(n) as real));
    assert Ready(s3.rows[0], s3.now);
    RunThree(s1, MarkFailed(0, ""), Pass(DelaySeconds(n) as real), ClaimBatch(0, [0]));
    Prepend(s, PublishRaises(0), [MarkFailed(0, ""), Pass(DelaySeconds(n) as real), ClaimBatch(0, [0])]);
    SpacingGrows(n);
  }

  /** For every n there is a run whose n-th claim of a row comes exactly `Spacing(n)`
      seconds after its first: the bound on the retry spacing is met. */
  lemma {:induction false} RetrySpacingIsTight(n: nat) returns (steps: seq<Step>)
    requires n >= 1
    ensures Runs(EMPTY, steps)
    ensures var times := Exec(EMPTY, steps).claimedAt;
            |times| == 1 && |times[0]| == n && times[0][n - 1] - times[0][0] == Spacing(n) as real
    ensures Tight(Exec(EMPTY, steps), n)
  {
    hide Runs, Exec, Spacing;
    if n == 1 {
      FirstClaimIsTight();
      steps := FirstClaim();
    } else {
      var before := RetrySpacingIsTight(n - 1);
      ClaimAgainIsTight(Exec(EMPTY, before), n - 1);
      RunsOfConcat(EMPTY, before, ClaimAgain(n - 1));
      steps := before + ClaimAgain(n - 1);
    }
  }
}
