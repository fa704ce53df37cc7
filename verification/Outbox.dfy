/** The transactional outbox table: rows of mirrored events that publishers claim,
    publish and mark. */
module Outbox {
  import opened Base

  datatype Status = Pending | InFlight | Published | Failed

  datatype Row = Row(
    execution: Option<int>, event: int, status: Status, attempts: nat,
    availableAt: real, publishedAt: Option<real>, lastError: Option<string>)

  /** What a claim hands to the publisher: the row's id and its attempts so far. */
  datatype Claim = Claim(id: nat, attempts: nat)

  // ---------------------------------------------------------------------------
  // The statements, as functions on rows; a row's id is its index in the table.

  function NewRow(execution: Option<int>, event: int, now: real): Row {
    Row(execution, event, Pending, 0, now, None, None)
  }

  /** The UNIQUE (execution_id, event_id) constraint; SQL nulls are never equal. */
  predicate Conflicts(rows: seq<Row>, execution: Option<int>, event: int) {
    execution.Some? && exists i | 0 <= i < |rows| :: rows[i].execution == execution && rows[i].event == event
  }

  function Enqueued(rows: seq<Row>, execution: Option<int>, event: int, now: real): seq<Row> {
    if Conflicts(rows, execution, event) then rows else rows + [NewRow(execution, event, now)]
  }

  predicate Ready(row: Row, now: real) {
    (row.status.Pending? || row.status.Failed?) && row.availableAt <= now
  }

  function ClaimedRow(row: Row): Row {
    row.(status := InFlight, attempts := row.attempts + 1)
  }

  function ClaimRows(rows: seq<Row>, ids: seq<nat>): (r: seq<Row>)
    ensures |r| == |rows|
    ensures forall i: nat | i < |rows| :: r[i] == if i in ids then ClaimedRow(rows[i]) else rows[i]
  {
    seq(|rows|, i requires 0 <= i < |rows| => if i in ids then ClaimedRow(rows[i]) else rows[i])
  }

  function PublishedRow(row: Row, now: real): Row {
    row.(status := Published, publishedAt := Some(now), lastError := None)
  }

  function Min(a: int, b: int): int {
    if a <= b then a else b
  }

  /** The retry delay in seconds after the given number of attempts. */
  function DelaySeconds(attempts: int): nat {
    Min(300, Pow2(Min(8, if attempts >= 1 then attempts - 1 else 0)))
  }

  function FailedRow(row: Row, now: real, attempts: int, error: string): Row {
    row.(status := Failed, availableAt := now + DelaySeconds(attempts) as real,
         lastError := Some(error[..Min(2000, |error|)]))
  }

  /** Enqueueing an event again changes nothing exactly when it has an execution: an
      event without one is never recognised as a duplicate. */
  lemma EnqueueAgain(rows: seq<Row>, execution: Option<int>, event: int, now: real, later: real)
    ensures var once := Enqueued(rows, execution, event, now);
            Enqueued(once, execution, event, later) == once <==> execution.Some?
  {
    var once := Enqueued(rows, execution, event, now);
    if execution.Some? && !Conflicts(rows, execution, event) {
      assert once[|rows|].execution == execution && once[|rows|].event == event;
    }
    assert |once + [NewRow(execution, event, later)]| == |once| + 1;
  }

  /** No two rows hold the same event of the same execution. */
  ghost predicate NoDuplicates(rows: seq<Row>) {
    forall i, j | 0 <= i < j < |rows| && rows[i].execution.Some? ::
      !(rows[i].execution == rows[j].execution && rows[i].event == rows[j].event)
  }

  lemma EnqueueKeepsNoDuplicates(rows: seq<Row>, execution: Option<int>, event: int, now: real)
    requires NoDuplicates(rows)
    ensures NoDuplicates(Enqueued(rows, execution, event, now))
  {
  }

  // ---------------------------------------------------------------------------
  // The table and one publisher's batch

  /** The ids of the first `n` of the rows below `k` that may be claimed. */
  ghost predicate FirstReady(rows: seq<Row>, now: real, locked: set<nat>, ids: seq<nat>, n: nat, k: nat) {
    && |ids| <= n && k <= |rows|
    && (forall a | 0 <= a < |ids| :: ids[a] < k && Ready(rows[ids[a]], now) && ids[a] !in locked)
    && (forall a, b | 0 <= a < b < |ids| :: ids[a] < ids[b])
    && (forall i: nat | i < k && Ready(rows[i], now) && i !in locked ::
          i in ids || (|ids| == n && n > 0 && ids[n - 1] < i))
  }

  lemma LookAtOneMore(rows: seq<Row>, now: real, locked: set<nat>, ids: seq<nat>, n: nat, k: nat)
    requires FirstReady(rows, now, locked, ids, n, k) && n > 0 && k < |rows|
    ensures if |ids| < n && Ready(rows[k], now) && k !in locked
            then FirstReady(rows, now, locked, ids + [k], n, k + 1)
            else FirstReady(rows, now, locked, ids, n, k + 1)
  {
    var ids' := ids + [k];
    assert ids'[|ids|] == k;
    assert forall i | i in ids :: i in ids';
  }

  lemma IdsDistinct(rows: seq<Row>, now: real, locked: set<nat>, ids: seq<nat>, n: nat, k: nat)
    requires FirstReady(rows, now, locked, ids, n, k)
    ensures forall a | 0 <= a < |ids| :: ids[a] < |rows|
    ensures forall a, b | 0 <= a < |ids| && 0 <= b < |ids| && a != b :: ids[a] != ids[b]
  {
  }

  /** How the distribution stream and mark_published answered for one claimed row. A call
      that marks a row and raises may have been committed. */
  datatype Fate = Delivered | PublishRaised(error: string) | MarkRaised(error: string, committed: bool)

  /** How mark_failed answers, if it is called. */
  datatype Answer = Returns | Raises(committed: bool)

  /** The row after publish_event and mark_published. */
  function TriedRow(row: Row, now: real, fate: Fate): Row {
    if fate.Delivered? || (fate.MarkRaised? && fate.committed) then PublishedRow(row, now) else row
  }

  function SettledRow(row: Row, now: real, attempts: nat, fate: Fate): Row {
    if fate.Delivered? then TriedRow(row, now, fate)
    else FailedRow(TriedRow(row, now, fate), now, attempts, fate.error)
  }

  /** The row at which the batch ends, because mark_failed raised. */
  function StoppedRow(row: Row, now: real, attempts: nat, fate: Fate, answer: Answer): Row {
    if answer == Raises(true) then SettledRow(row, now, attempts, fate) else TriedRow(row, now, fate)
  }

  /** The table once the first `k` claimed rows have been settled. */
  function SettleFirst(rows: seq<Row>, ids: seq<nat>, fates: nat -> Fate, now: real, k: nat): (r: seq<Row>)
    requires k <= |ids| && forall a | 0 <= a < |ids| :: ids[a] < |rows|
    ensures |r| == |rows|
  {
    if k == 0 then rows
    else
      var before := SettleFirst(rows, ids, fates, now, k - 1);
      var row := rows[ids[k - 1]];
      before[ids[k - 1] := SettledRow(row, now, row.attempts, fates(k - 1))]
  }

  lemma {:induction false} SettledFirst(rows: seq<Row>, ids: seq<nat>, fates: nat -> Fate, now: real, k: nat)
    requires k <= |ids| && forall a | 0 <= a < |ids| :: ids[a] < |rows|
    requires forall a, b | 0 <= a < |ids| && 0 <= b < |ids| && a != b :: ids[a] != ids[b]
    ensures forall a | 0 <= a < |ids| ::
              SettleFirst(rows, ids, fates, now, k)[ids[a]]
              == if a < k then SettledRow(rows[ids[a]], now, rows[ids[a]].attempts, fates(a)) else rows[ids[a]]
    ensures forall i | 0 <= i < |rows| && i !in ids :: SettleFirst(rows, ids, fates, now, k)[i] == rows[i]
  {
    if k > 0 {
      SettledFirst(rows, ids, fates, now, k - 1);
    }
  }

  lemma {:induction false} NoneSettled(rows: seq<Row>, ids: seq<nat>, fates: nat -> Fate, now: real)
    requires forall a | 0 <= a < |ids| :: ids[a] < |rows|
    ensures SettleFirst(rows, ids, fates, now, 0) == rows
  {
  }

  /** Settling one row more changes just that row. */
  lemma SettleOneMore(rows: seq<Row>, ids: seq<nat>, fates: nat -> Fate, now: real, k: nat)
    requires k < |ids| && forall a | 0 <= a < |ids| :: ids[a] < |rows|
    requires forall a, b | 0 <= a < |ids| && 0 <= b < |ids| && a != b :: ids[a] != ids[b]
    ensures var before, row := SettleFirst(rows, ids, fates, now, k), rows[ids[k]];
            && before[ids[k]] == row
            && SettleFirst(rows, ids, fates, now, k + 1) ==
               before[ids[k] := SettledRow(row, now, row.attempts, fates(k))]
  {
    SettledFirst(rows, ids, fates, now, k);
  }

  /** The table when the batch ends at claim `stop`, or has settled all claims. */
  function BatchRows(rows: seq<Row>, ids: seq<nat>, fates: nat -> Fate, answers: nat -> Answer, now: real, stop: nat)
    : (r: seq<Row>)
    requires stop <= |ids| && forall a | 0 <= a < |ids| :: ids[a] < |rows|
    ensures |r| == |rows|
  {
    var before := SettleFirst(rows, ids, fates, now, stop);
    if stop == |ids| then before
    else
      var row := rows[ids[stop]];
      before[ids[stop] := StoppedRow(row, now, row.attempts, fates(stop), answers(stop))]
  }

  function DeliveredCount(fates: nat -> Fate, k: nat): nat {
    if k == 0 then 0 else DeliveredCount(fates, k - 1) + (if fates(k - 1).Delivered? then 1 else 0)
  }

  class OutboxTable {
    var rows: seq<Row>
    var now: real

    method Enqueue(execution: Option<int>, event: Option<int>) returns (r: Result<(), string>)
      modifies `rows
      ensures event.None? <==> r.Err?
      ensures rows == if event.None? then old(rows) else Enqueued(old(rows), execution, event.value, now)
    {
      if event.None? {
        return Err("outbox requires event_id");
      }
      if !Conflicts(rows, execution, event.value) {
        rows := rows + [NewRow(execution, event.value, now)];
      }
      r := Ok(());
    }

    /** The ready rows in id order, without those another transaction has locked. */
    method SelectReady(n: nat, locked: set<nat>) returns (ids: seq<nat>)
      requires n > 0
      ensures FirstReady(rows, now, locked, ids, n, |rows|)
    {
      ids := [];
      for k := 0 to |rows|
        invariant FirstReady(rows, now, locked, ids, n, k)
      {
        LookAtOneMore(rows, now, locked, ids, n, k);
        if |ids| < n && Ready(rows[k], now) && k !in locked {
          ids := ids + [k];
        }
      }
    }

    /** Claims the first ready rows by id. */
    method ClaimBatch(limit: int, locked: set<nat>) returns (claims: seq<Claim>, ghost ids: seq<nat>)
      modifies `rows
      ensures FirstReady(old(rows), now, locked, ids, if limit >= 1 then limit else 1, |old(rows)|)
      ensures rows == ClaimRows(old(rows), ids)
      ensures |claims| == |ids|
      ensures forall a | 0 <= a < |ids| :: ids[a] < |rows| && claims[a] == Claim(ids[a], rows[ids[a]].attempts)
    {
      var n := if limit >= 1 then limit else 1;
      var selected := SelectReady(n, locked);
      IdsDistinct(rows, now, locked, selected, n, |rows|);
      var after := ClaimRows(rows, selected);
      rows := after;
      claims := seq(|selected|, a requires 0 <= a < |selected| && selected[a] < |after| =>
                      Claim(selected[a], after[selected[a]].attempts));
      ids := selected;
    }

    method MarkPublished(id: nat)
      requires id < |rows|
      modifies `rows
      ensures rows == old(rows)[id := PublishedRow(old(rows)[id], now)]
    {
      rows := rows[id := PublishedRow(rows[id], now)];
    }

    method MarkFailed(id: nat, error: string, attempts: int)
      requires id < |rows|
      modifies `rows
      ensures rows == old(rows)[id := FailedRow(old(rows)[id], now, attempts, error)]
    {
      rows := rows[id := FailedRow(rows[id], now, attempts, error)];
    }

    /** Publishes and marks one claimed row; false when marking the failure raises. */
    method PublishOne(claim: Claim, fate: Fate, answer: Answer) returns (ok: bool)
      requires claim.id < |rows|
      modifies `rows
      ensures ok == (fate.Delivered? || answer.Returns?)
      ensures var row := old(rows)[claim.id];
              rows == old(rows)[claim.id := if ok then SettledRow(row, now, claim.attempts, fate)
                                            else StoppedRow(row, now, claim.attempts, fate, answer)]
    {
      if fate.Delivered? || (fate.MarkRaised? && fate.committed) {
        MarkPublished(claim.id);
      }
      if fate.Delivered? {
        return true;
      }
      if answer != Raises(false) {
        MarkFailed(claim.id, fate.error, claim.attempts);
      }
      ok := answer.Returns?;
    }

    /** Publishes the claimed rows in turn, until marking a failure raises. */
    method PublishClaims(claims: seq<Claim>, fates: nat -> Fate, answers: nat -> Answer, ghost ids: seq<nat>)
      returns (r: Result<nat, string>, ghost stop: nat)
      requires |claims| == |ids|
      requires forall a, b | 0 <= a < |ids| && 0 <= b < |ids| && a != b :: ids[a] != ids[b]
      requires forall a | 0 <= a < |ids| :: ids[a] < |rows| && claims[a] == Claim(ids[a], rows[ids[a]].attempts)
      modifies `rows
      ensures stop <= |ids|
      ensures r.Ok? ==> stop == |ids| && r.value == DeliveredCount(fates, |ids|)
      ensures r.Err? ==> stop < |ids| && !fates(stop).Delivered? && answers(stop).Raises?
      ensures forall a | 0 <= a < stop :: fates(a).Delivered? || answers(a).Returns?
      ensures rows == BatchRows(old(rows), ids, fates, answers, now, stop)
    {
      hide SettledRow, StoppedRow, SettleFirst;
      NoneSettled(rows, ids, fates, now);
      ghost var start := rows;
      var published: nat := 0;
      stop := 0;
      for k := 0 to |claims|
        invariant stop == k
        invariant published == DeliveredCount(fates, k)
        invariant forall a | 0 <= a < k :: fates(a).Delivered? || answers(a).Returns?
        invariant rows == SettleFirst(start, ids, fates, now, k)
      {
        SettleOneMore(start, ids, fates, now, k);
        var ok := PublishOne(claims[k], fates(k), answers(k));
        if !ok {
          return Err(fates(k).error), k;
        }
        if fates(k).Delivered? {
          published := published + 1;
        }
        stop := k + 1;
      }
      r := Ok(published);
    }

    /** Publishes one batch. Every row before `stop` is settled by its own fate, with the
        attempts of its claim; a raising mark_failed call at `stop` ends the batch, and
        the rows after it stay in flight. */
    method PublishBatch(limit: int, locked: set<nat>, fates: nat -> Fate, answers: nat -> Answer)
      returns (r: Result<nat, string>, ghost ids: seq<nat>, ghost stop: nat)
      modifies `rows
      ensures FirstReady(old(rows), now, locked, ids, if limit >= 1 then limit else 1, |old(rows)|)
      ensures stop <= |ids| && |rows| == |old(rows)|
      ensures r.Ok? ==> stop == |ids| && r.value == DeliveredCount(fates, |ids|)
      ensures r.Err? ==> stop < |ids| && !fates(stop).Delivered? && answers(stop).Raises?
      ensures forall a | 0 <= a < stop :: fates(a).Delivered? || answers(a).Returns?
      ensures forall a | 0 <= a < |ids| ::
                var claimed := ClaimedRow(old(rows)[ids[a]]);
                rows[ids[a]] == if a < stop then SettledRow(claimed, now, claimed.attempts, fates(a))
                                else if a == stop then StoppedRow(claimed, now, claimed.attempts, fates(a), answers(a))
                                else claimed
      ensures forall i | 0 <= i < |rows| && i !in ids :: rows[i] == old(rows)[i]
      ensures rows == BatchRows(ClaimRows(old(rows), ids), ids, fates, answers, now, stop)
    {
      hide FirstReady, SettledRow, StoppedRow, ClaimedRow, SettleFirst;
      var claims;
      claims, ids := ClaimBatch(limit, locked);
      IdsDistinct(old(rows), now, locked, ids, if limit >= 1 then limit else 1, |rows|);
      ghost var after := rows;
      r, stop := PublishClaims(claims, fates, answers, ids);
      SettledFirst(after, ids, fates, now, stop);
    }
  }
}
