/** The cursor worker loop: claim a frame of rows, execute it, count, and repeat until the
    driver runs dry, a task sequence asks to break, or the cap is reached. */
module CursorWorker {
  import opened Base

  type Row = string

  /** How a task sequence ends: it raises, or returns a dictionary with a status or
      something else. */
  datatype RawResult = Raised | NotADict | Status(text: string)

  datatype RowStatus = RowOk | RowFailed | RowBreak

  /** A driver claims whole batches or row by row. Its answers depend on the frame they
      are for, so they may differ from claim to claim in any way. */
  datatype Driver =
    | Batched(claimMany: (nat, nat) -> seq<Row>)
    | RowByRow(claim: (nat, nat) -> Option<Row>)

  datatype Process = ByRow | ByFrame

  datatype Policy = Policy(
    maxRows: int, rowConcurrency: int, process: Process, maxIterations: int)

  /** The task sequence, run on the row with a given `_index`, or on a whole frame. */
  datatype Tasks = Tasks(row: (nat, Row) -> RawResult, frame: (nat, seq<Row>) -> RawResult)

  datatype Report = Report(ok: bool, processed: nat, failed: nat, breaks: nat, frameCount: nat)

  /** A claimed row that was executed, at its place in the run, and what its task sequence
      returned. A row executed by itself is given that place as `_index`; the rows of a whole
      frame share the result of their frame. */
  datatype Executed = Executed(index: nat, row: Row, raw: RawResult)

  // ---------------------------------------------------------------------------
  // Claiming

  function AtLeastOne(n: int): nat {
    if n >= 1 then n else 1
  }

  function Target(maxRows: int, remaining: nat): nat
    requires remaining > 0
  {
    if AtLeastOne(maxRows) <= remaining then AtLeastOne(maxRows) else remaining
  }

  /** The rows a row-by-row driver gives before it first has none. */
  function RowsUntilNone(claim: (nat, nat) -> Option<Row>, frame: nat, k: nat): seq<Row> {
    if k == 0 then []
    else
      var before := RowsUntilNone(claim, frame, k - 1);
      if |before| == k - 1 && claim(frame, k - 1).Some? then before + [claim(frame, k - 1).value] else before
  }

  /** Everything the driver hands over for a frame. */
  function Handed(driver: Driver, frame: nat, target: nat): seq<Row> {
    match driver
    case Batched(claimMany) => claimMany(frame, target)
    case RowByRow(claim) => RowsUntilNone(claim, frame, target)
  }

  /** The frame's rows: at most as many as asked for. */
  function FrameRows(driver: Driver, frame: nat, maxRows: int, remaining: nat): seq<Row>
    requires remaining > 0
  {
    var handed := Handed(driver, frame, Target(maxRows, remaining));
    if |handed| <= Target(maxRows, remaining) then handed else handed[..Target(maxRows, remaining)]
  }

  lemma {:induction false} RowsUntilNoneStops(claim: (nat, nat) -> Option<Row>, frame: nat, k: nat, n: nat)
    requires k <= n
    ensures var some := RowsUntilNone(claim, frame, k);
            && |some| <= k
            && (|some| < k ==> RowsUntilNone(claim, frame, n) == some)
            && (|some| == k < n && claim(frame, k).None? ==> RowsUntilNone(claim, frame, n) == some)
    decreases n
  {
    if k > 0 {
      RowsUntilNoneStops(claim, frame, k - 1, k - 1);
    }
    if k < n {
      RowsUntilNoneStops(claim, frame, k, n - 1);
    }
  }

  method ClaimFrameRows(driver: Driver, frame: nat, maxRows: int, remaining: int) returns (rows: seq<Row>)
    ensures rows == if remaining <= 0 then [] else FrameRows(driver, frame, maxRows, remaining)
  {
    if remaining <= 0 {
      return [];
    }
    var target := if AtLeastOne(maxRows) <= remaining then AtLeastOne(maxRows) else remaining;
    match driver
    case Batched(claimMany) =>
      var claimed := claimMany(frame, target);
      rows := if |claimed| <= target then claimed else claimed[..target];
    case RowByRow(claim) =>
      rows := [];
      RowsUntilNoneStops(claim, frame, target, target);
      for k := 0 to target
        invariant rows == RowsUntilNone(claim, frame, k) && |rows| == k
      {
        RowsUntilNoneStops(claim, frame, k, target);
        var row := claim(frame, k);
        if row.None? {
          break;
        }
        rows := rows + [row.value];
      }
  }

  /** The rows a row-by-row driver gives are its answers up to the first that is none. */
  lemma {:induction false} RowsAreAnswers(claim: (nat, nat) -> Option<Row>, frame: nat, k: nat)
    ensures var rows := RowsUntilNone(claim, frame, k);
            && |rows| <= k
            && (forall i | 0 <= i < |rows| :: claim(frame, i) == Some(rows[i]))
            && (|rows| < k ==> claim(frame, |rows|).None?)
  {
    if k > 0 {
      RowsAreAnswers(claim, frame, k - 1);
    }
  }

  /** A frame never has more rows than `max_rows`, or one if that is less, nor than are
      left under the cap; it has as many as the driver gives up to that. */
  lemma FrameSize(driver: Driver, frame: nat, maxRows: int, remaining: nat)
    requires remaining > 0
    ensures var rows := FrameRows(driver, frame, maxRows, remaining);
            var most := if maxRows < 1 then 1 else if maxRows <= remaining then maxRows else remaining;
            && |rows| <= most
            && match driver
               case Batched(claimMany) =>
                 var given := claimMany(frame, most);
                 rows <= given && |rows| == if |given| <= most then |given| else most
               case RowByRow(claim) =>
                 && (forall i | 0 <= i < |rows| :: claim(frame, i) == Some(rows[i]))
                 && (|rows| < most ==> claim(frame, |rows|).None?)
  {
    if driver.RowByRow? {
      RowsAreAnswers(driver.claim, frame, Target(maxRows, remaining));
    }
  }

  /** No handed row is dropped exactly when the driver gives no more than asked; a
      row-by-row driver never does. */
  lemma FrameKeepsAllIff(driver: Driver, frame: nat, maxRows: int, remaining: nat)
    requires remaining > 0
    ensures var target := Target(maxRows, remaining);
            && (FrameRows(driver, frame, maxRows, remaining) == Handed(driver, frame, target)
                <==> |Handed(driver, frame, target)| <= target)
            && (driver.RowByRow? ==> |Handed(driver, frame, target)| <= target)
  {
    if driver.RowByRow? {
      var target := Target(maxRows, remaining);
      RowsUntilNoneStops(driver.claim, frame, target, target);
    }
  }

  // ---------------------------------------------------------------------------
  // Executing one frame

  function StatusOf(r: RawResult): RowStatus {
    match r
    case Raised => RowFailed
    case NotADict => RowOk
    case Status(text) =>
      if Lower(text) == "failed" then RowFailed else if Lower(text) == "break" then RowBreak else RowOk
  }

  /** A task sequence fails when it raises, or returns a status that spells "failed". */
  predicate Fails(r: RawResult) {
    r.Raised? || (r.Status? && CasingOf(r.text, "failed"))
  }

  /** It asks to break when it returns a status that spells "break". */
  predicate Breaks(r: RawResult) {
    r.Status? && CasingOf(r.text, "break")
  }

  lemma StatusIff(r: RawResult)
    ensures StatusOf(r).RowFailed? <==> Fails(r)
    ensures StatusOf(r).RowBreak? <==> Breaks(r)
  {
    if r.Status? {
      LowerIff(r.text, "failed");
      LowerIff(r.text, "break");
    }
  }

  function Count(statuses: seq<RowStatus>, s: RowStatus): nat {
    if statuses == [] then 0
    else Count(statuses[..|statuses| - 1], s) + (if statuses[|statuses| - 1] == s then 1 else 0)
  }

  lemma {:induction false} CountsAddUp(statuses: seq<RowStatus>)
    ensures Count(statuses, RowOk) + Count(statuses, RowFailed) + Count(statuses, RowBreak) == |statuses|
  {
    if statuses != [] {
      CountsAddUp(statuses[..|statuses| - 1]);
    }
  }

  lemma {:induction false} CountOfConcat(a: seq<RowStatus>, b: seq<RowStatus>, s: RowStatus)
    ensures Count(a + b, s) == Count(a, s) + Count(b, s)
    decreases |b|
  {
    if b == [] {
      assert a + b == a;
    } else {
      assert (a + b)[..|a + b| - 1] == a + b[..|b| - 1];
      CountOfConcat(a, b[..|b| - 1], s);
    }
  }

  lemma {:induction false} CountIn(statuses: seq<RowStatus>, s: RowStatus)
    ensures Count(statuses, s) > 0 <==> s in statuses
  {
    if statuses != [] {
      CountIn(statuses[..|statuses| - 1], s);
      assert statuses == statuses[..|statuses| - 1] + [statuses[|statuses| - 1]];
    }
  }

  /** The positions of a status. */
  function Positions(statuses: seq<RowStatus>, s: RowStatus): set<nat> {
    set k: nat | k < |statuses| && statuses[k] == s
  }

  /** Counting is counting positions. */
  lemma {:induction false} CountIsCardinality(statuses: seq<RowStatus>, s: RowStatus)
    ensures Count(statuses, s) == |Positions(statuses, s)|
  {
    if statuses != [] {
      var front, last := statuses[..|statuses| - 1], |statuses| - 1;
      CountIsCardinality(front, s);
      if statuses[last] == s {
        assert Positions(statuses, s) == Positions(front, s) + {last};
      } else {
        assert Positions(statuses, s) == Positions(front, s);
      }
    }
  }

  datatype FrameMetrics = FrameMetrics(ok: nat, failed: nat, brk: nat)

  method AggregateFrameMetrics(statuses: seq<RowStatus>) returns (m: FrameMetrics)
    ensures m == FrameMetrics(Count(statuses, RowOk), Count(statuses, RowFailed), Count(statuses, RowBreak))
  {
    m := FrameMetrics(0, 0, 0);
    for k := 0 to |statuses|
      invariant m == FrameMetrics(Count(statuses[..k], RowOk), Count(statuses[..k], RowFailed),
                                  Count(statuses[..k], RowBreak))
    {
      assert statuses[..k + 1][..k] == statuses[..k];
      match statuses[k]
      case RowOk => m := m.(ok := m.ok + 1);
      case RowFailed => m := m.(failed := m.failed + 1);
      case RowBreak => m := m.(brk := m.brk + 1);
    }
    assert statuses[..|statuses|] == statuses;
  }

  predicate Sequential(policy: Policy, rows: seq<Row>) {
    policy.process.ByRow? && (policy.rowConcurrency <= 1 || |rows| <= 1)
  }

  /** The statuses a frame must come to: every row's own, in order; a sequential frame ends
      with the first break; a whole frame has one status for all its rows. */
  ghost predicate FrameStatuses(policy: Policy, tasks: Tasks, base: nat, rows: seq<Row>, statuses: seq<RowStatus>) {
    && |statuses| <= |rows| && (rows != [] ==> statuses != [])
    && (policy.process.ByRow? ==>
          forall k | 0 <= k < |statuses| :: statuses[k] == StatusOf(tasks.row(base + k, rows[k])))
    && (policy.process.ByFrame? ==>
          forall k | 0 <= k < |statuses| :: statuses[k] == StatusOf(tasks.frame(base, rows)))
    && (|statuses| < |rows| ==> Sequential(policy, rows) && statuses[|statuses| - 1].RowBreak?)
    && (Sequential(policy, rows) ==> forall k | 0 <= k < |statuses| - 1 :: !statuses[k].RowBreak?)
  }

  /** Executes rows one after the other, up to the first break. */
  method ExecuteInTurn(tasks: Tasks, base: nat, rows: seq<Row>) returns (done: seq<RowStatus>)
    ensures |done| <= |rows| && (rows != [] ==> done != [])
    ensures forall k | 0 <= k < |done| :: done[k] == StatusOf(tasks.row(base + k, rows[k]))
    ensures forall k | 0 <= k < |done| - 1 :: !done[k].RowBreak?
    ensures |done| < |rows| ==> done[|done| - 1].RowBreak?
  {
    hide StatusOf;
    done := [];
    for k := 0 to |rows|
      invariant |done| == k
      invariant forall j | 0 <= j < k :: done[j] == StatusOf(tasks.row(base + j, rows[j])) && !done[j].RowBreak?
    {
      var status := StatusOf(tasks.row(base + k, rows[k]));
      done := done + [status];
      if status.RowBreak? {
        break;
      }
    }
  }

  method ExecuteFrame(policy: Policy, tasks: Tasks, base: nat, rows: seq<Row>)
    returns (m: FrameMetrics, statuses: seq<RowStatus>)
    ensures FrameStatuses(policy, tasks, base, rows, statuses)
    ensures m == FrameMetrics(Count(statuses, RowOk), Count(statuses, RowFailed), Count(statuses, RowBreak))
  {
    hide StatusOf, Count;
    if policy.process.ByFrame? {
      var status := StatusOf(tasks.frame(base, rows));
      m := FrameMetrics(if status.RowOk? then |rows| else 0, if status.RowFailed? then |rows| else 0,
                        if status.RowBreak? then |rows| else 0);
      statuses := seq(|rows|, k => status);
      CountOfRepeated(status, |rows|);
    } else if policy.rowConcurrency <= 1 || |rows| <= 1 {
      var done := ExecuteInTurn(tasks, base, rows);
      m := AggregateFrameMetrics(done);
      statuses := done;
    } else {
      var all := seq(|rows|, k requires 0 <= k < |rows| => StatusOf(tasks.row(base + k, rows[k])));
      m := AggregateFrameMetrics(all);
      statuses := all;
    }
  }

  lemma {:induction false} CountOfRepeated(status: RowStatus, n: nat)
    ensures var all := seq(n, k => status);
            forall s :: Count(all, s) == if s == status then n else 0
  {
    if n > 0 {
      CountOfRepeated(status, n - 1);
      assert seq(n, k => status)[..n - 1] == seq(n - 1, k => status);
    }
  }

  // ---------------------------------------------------------------------------
  // The main loop

  function Concat(frames: seq<seq<Row>>, n: nat): seq<Row>
    requires n <= |frames|
  {
    if n == 0 then [] else Concat(frames, n - 1) + frames[n - 1]
  }

  lemma {:induction false} ConcatOfMore(frames: seq<seq<Row>>, more: seq<Row>, n: nat)
    requires n <= |frames|
    ensures Concat(frames + [more], n) == Concat(frames, n)
  {
    if n > 0 {
      ConcatOfMore(frames, more, n - 1);
    }
  }

  lemma {:induction false} ConcatOneMore(frames: seq<seq<Row>>, more: seq<Row>)
    ensures Concat(frames + [more], |frames| + 1) == Concat(frames, |frames|) + more
  {
    ConcatOfMore(frames, more, |frames|);
  }

  function StatusesOf(executed: seq<Executed>): seq<RowStatus> {
    seq(|executed|, k requires 0 <= k < |executed| => StatusOf(executed[k].raw))
  }

  /** The first `n` rows of a frame, executed. */
  function ExecutedOf(policy: Policy, tasks: Tasks, base: nat, rows: seq<Row>, n: nat): seq<Executed>
    requires n <= |rows|
  {
    seq(n, k requires 0 <= k < n =>
          Executed(base + k, rows[k],
                   if policy.process.ByRow? then tasks.row(base + k, rows[k]) else tasks.frame(base, rows)))
  }

  /** Frame `f` was claimed with all rows of the earlier frames executed. */
  ghost predicate ClaimedInTurn(policy: Policy, driver: Driver, frames: seq<seq<Row>>) {
    forall f | 0 <= f < |frames| ::
      && |Concat(frames, f)| < policy.maxIterations
      && frames[f] != []
      && frames[f] == FrameRows(driver, f, policy.maxRows, policy.maxIterations - |Concat(frames, f)|)
  }

  /** Executed row `k` is claimed row `k`; by row, its result is that of the run with `_index`
      k. */
  ghost predicate ExecutedInTurn(policy: Policy, tasks: Tasks, claimed: seq<Row>, executed: seq<Executed>) {
    && |executed| <= |claimed|
    && forall k | 0 <= k < |executed| ::
         && executed[k].index == k && executed[k].row == claimed[k]
         && (policy.process.ByRow? ==> executed[k].raw == tasks.row(k, claimed[k]))
  }

  /** By frame, every executed row has the result of the run of its frame. */
  ghost predicate FramesShareResult(policy: Policy, tasks: Tasks, frames: seq<seq<Row>>, executed: seq<Executed>) {
    policy.process.ByFrame? ==>
      forall f: nat, k: nat | f < |frames| && |Concat(frames, f)| <= k < |Concat(frames, f + 1)| && k < |executed| ::
        executed[k].raw == tasks.frame(|Concat(frames, f)|, frames[f])
  }

  /** The rows left unexecuted are of the last frame, which a sequential break cut short. */
  ghost predicate CutShort(policy: Policy, frames: seq<seq<Row>>, executed: seq<Executed>) {
    && frames != [] && executed != []
    && policy.process.ByRow? && (policy.rowConcurrency <= 1 || |frames[|frames| - 1]| <= 1)
    && Breaks(executed[|executed| - 1].raw)
    && |Concat(frames, |frames| - 1)| < |executed|
  }

  /** A break is asked for in the last frame only, and if its rows run one by one, by the
      last row that is executed only. */
  ghost predicate BreaksLast(policy: Policy, frames: seq<seq<Row>>, executed: seq<Executed>) {
    forall k: nat | k < |executed| && Breaks(executed[k].raw) ::
      && frames != [] && |Concat(frames, |frames| - 1)| <= k
      && (policy.process.ByRow? && (policy.rowConcurrency <= 1 || |frames[|frames| - 1]| <= 1) ==> k == |executed| - 1)
  }

  /** The executed rows whose result fails, and those whose result asks to break. */
  ghost function Failing(executed: seq<Executed>): set<nat> {
    set k: nat | k < |executed| && Fails(executed[k].raw)
  }

  ghost function Breaking(executed: seq<Executed>): set<nat> {
    set k: nat | k < |executed| && Breaks(executed[k].raw)
  }

  lemma CountsOfResults(executed: seq<Executed>)
    ensures Count(StatusesOf(executed), RowFailed) == |Failing(executed)|
    ensures Count(StatusesOf(executed), RowBreak) == |Breaking(executed)|
  {
    hide StatusOf, Fails, Breaks, Count;
    var statuses := StatusesOf(executed);
    CountIsCardinality(statuses, RowFailed);
    CountIsCardinality(statuses, RowBreak);
    forall k: nat | k < |executed|
      ensures statuses[k] == RowFailed <==> Fails(executed[k].raw)
      ensures statuses[k] == RowBreak <==> Breaks(executed[k].raw)
    {
      StatusIff(executed[k].raw);
    }
    assert Positions(statuses, RowFailed) == Failing(executed);
    assert Positions(statuses, RowBreak) == Breaking(executed);
  }

  lemma StatusesOfFrame(policy: Policy, tasks: Tasks, base: nat, rows: seq<Row>, statuses: seq<RowStatus>)
    requires FrameStatuses(policy, tasks, base, rows, statuses)
    ensures StatusesOf(ExecutedOf(policy, tasks, base, rows, |statuses|)) == statuses
  {
    hide StatusOf;
  }

  lemma FrameGoesOn(policy: Policy, tasks: Tasks, claimed: seq<Row>, executed: seq<Executed>,
                    rows: seq<Row>, statuses: seq<RowStatus>)
    requires ExecutedInTurn(policy, tasks, claimed, executed) && |executed| == |claimed|
    requires FrameStatuses(policy, tasks, |claimed|, rows, statuses)
    ensures var more := ExecutedOf(policy, tasks, |claimed|, rows, |statuses|);
            && ExecutedInTurn(policy, tasks, claimed + rows, executed + more)
            && StatusesOf(executed + more) == StatusesOf(executed) + statuses
  {
    hide StatusOf;
    StatusesOfFrame(policy, tasks, |claimed|, rows, statuses);
    var more := ExecutedOf(policy, tasks, |claimed|, rows, |statuses|);
    assert StatusesOf(executed + more) == StatusesOf(executed) + StatusesOf(more);
  }

  /** As long as no row asked to break, the rows of the next frame may. */
  lemma {:induction false} BreaksStayLast(policy: Policy, tasks: Tasks, frames: seq<seq<Row>>, executed: seq<Executed>,
                                          rows: seq<Row>, statuses: seq<RowStatus>)
    requires Breaking(executed) == {} && |executed| == |Concat(frames, |frames|)|
    requires FrameStatuses(policy, tasks, |executed|, rows, statuses)
    ensures BreaksLast(policy, frames + [rows], executed + ExecutedOf(policy, tasks, |executed|, rows, |statuses|))
  {
    hide StatusOf, Breaks, Concat;
    ConcatOfMore(frames, rows, |frames|);
    var more := ExecutedOf(policy, tasks, |executed|, rows, |statuses|);
    StatusesOfFrame(policy, tasks, |executed|, rows, statuses);
    forall k: nat | k < |executed|
      ensures !Breaks(executed[k].raw)
    {
      assert k !in Breaking(executed);
    }
    forall k: nat | k < |executed + more| && Breaks((executed + more)[k].raw)
      ensures |executed| <= k && (Sequential(policy, rows) ==> k == |executed + more| - 1)
    {
      if k >= |executed| {
        var j := k - |executed|;
        StatusIff(more[j].raw);
        assert StatusesOf(more)[j] == statuses[j];
      }
    }
  }

  lemma {:induction false} ConcatGrows(frames: seq<seq<Row>>, f: nat, n: nat)
    requires f <= n <= |frames|
    ensures |Concat(frames, f)| <= |Concat(frames, n)|
  {
    if f < n {
      ConcatGrows(frames, f, n - 1);
    }
  }

  lemma {:induction false} FrameShares(policy: Policy, tasks: Tasks, frames: seq<seq<Row>>, executed: seq<Executed>,
                                       rows: seq<Row>, statuses: seq<RowStatus>)
    requires FramesShareResult(policy, tasks, frames, executed) && |executed| == |Concat(frames, |frames|)|
    requires FrameStatuses(policy, tasks, |executed|, rows, statuses)
    ensures FramesShareResult(policy, tasks, frames + [rows],
                              executed + ExecutedOf(policy, tasks, |executed|, rows, |statuses|))
  {
    hide StatusOf, Concat;
    var frames', executed' := frames + [rows], executed + ExecutedOf(policy, tasks, |executed|, rows, |statuses|);
    if policy.process.ByFrame? {
      forall f: nat, k: nat | f < |frames'| && |Concat(frames', f)| <= k < |Concat(frames', f + 1)| && k < |executed'|
        ensures executed'[k].raw == tasks.frame(|Concat(frames', f)|, frames'[f])
      {
        ConcatOfMore(frames, rows, f);
        if f < |frames| {
          ConcatOfMore(frames, rows, f + 1);
          ConcatGrows(frames, f + 1, |frames|);
        }
      }
    }
  }

  /** Runs the worker. `frames` are the claimed frames in order, `executed` the executed
      rows. The call always returns. */
  method ExecuteCursorWorker(policy: Policy, driver: Driver, tasks: Tasks)
    returns (r: Report, ghost frames: seq<seq<Row>>, ghost executed: seq<Executed>)
    ensures r.frameCount == |frames| && ClaimedInTurn(policy, driver, frames)
    ensures ExecutedInTurn(policy, tasks, Concat(frames, |frames|), executed)
    ensures FramesShareResult(policy, tasks, frames, executed)
    // The counters are those of the executed rows' results, and the cap holds.
    ensures r.failed == |Failing(executed)| && r.breaks == |Breaking(executed)|
    ensures r.processed == |executed| - |Failing(executed)|
    ensures r.ok <==> Failing(executed) == {}
    ensures policy.maxIterations > 0 ==> r.processed + r.failed <= policy.maxIterations
    ensures policy.maxIterations <= 0 ==> frames == []
    // Every claimed row is executed, but for those a sequential break left.
    ensures |executed| == |Concat(frames, |frames|)| || CutShort(policy, frames, executed)
    // A break ends the loop; otherwise it ends for want of rows or at the cap.
    ensures BreaksLast(policy, frames, executed)
    ensures || Breaking(executed) != {}
            || |executed| >= policy.maxIterations
            || FrameRows(driver, |frames|, policy.maxRows, policy.maxIterations - |executed|) == []
  {
    hide FrameStatuses, FrameRows, ExecutedOf, StatusesOf, ExecutedInTurn, ClaimedInTurn, FramesShareResult,
         Concat, Count, CutShort, BreaksLast, Failing, Breaking;
    NoneExecuted(policy, driver, tasks);
    var processed: nat, failed: nat, breaks: nat, frameCount: nat := 0, 0, 0, 0;
    frames, executed := [], [];
    while processed + failed < policy.maxIterations
      invariant frameCount == |frames| && ClaimedInTurn(policy, driver, frames)
      invariant ExecutedInTurn(policy, tasks, Concat(frames, |frames|), executed)
      invariant FramesShareResult(policy, tasks, frames, executed)
      invariant BreaksLast(policy, frames, executed)
      invariant processed + failed == |executed| == |Concat(frames, |frames|)|
      invariant failed == Count(StatusesOf(executed), RowFailed) && breaks == Count(StatusesOf(executed), RowBreak) == 0
      invariant policy.maxIterations > 0 ==> processed + failed <= policy.maxIterations
      invariant policy.maxIterations <= 0 ==> frames == []
      decreases policy.maxIterations - (processed + failed)
    {
      var rows := ClaimFrameRows(driver, frameCount, policy.maxRows, policy.maxIterations - (processed + failed));
      if rows == [] {
        break;
      }
      var m, statuses := ExecuteFrame(policy, tasks, processed + failed, rows);
      ghost var claimed := Concat(frames, |frames|);
      CountsOfResults(executed);
      FrameGoesOn(policy, tasks, claimed, executed, rows, statuses);
      FrameShares(policy, tasks, frames, executed, rows, statuses);
      CountsAddUp(statuses);
      CountOfConcat(StatusesOf(executed), statuses, RowFailed);
      CountOfConcat(StatusesOf(executed), statuses, RowBreak);
      ConcatOneMore(frames, rows);
      ClaimGoesOn(policy, driver, frames, rows);
      FrameAdds(policy, driver, tasks, frames, rows, executed, statuses);
      BreaksStayLast(policy, tasks, frames, executed, rows, statuses);
      executed := executed + ExecutedOf(policy, tasks, |claimed|, rows, |statuses|);
      frames := frames + [rows];
      failed := failed + m.failed;
      breaks := breaks + m.brk;
      processed := processed + m.ok + m.brk;
      frameCount := frameCount + 1;
      if m.brk > 0 {
        break;
      }
    }
    CountsOfResults(executed);
    r := Report(failed == 0, processed, failed, breaks, frameCount);
  }

  lemma NoneExecuted(policy: Policy, driver: Driver, tasks: Tasks)
    ensures ClaimedInTurn(policy, driver, []) && Concat([], 0) == []
    ensures ExecutedInTurn(policy, tasks, [], []) && FramesShareResult(policy, tasks, [], [])
    ensures BreaksLast(policy, [], [])
    ensures Count(StatusesOf([]), RowFailed) == Count(StatusesOf([]), RowBreak) == 0
  {
  }

  lemma {:induction false} ClaimGoesOn(policy: Policy, driver: Driver, frames: seq<seq<Row>>, rows: seq<Row>)
    requires ClaimedInTurn(policy, driver, frames) && |Concat(frames, |frames|)| < policy.maxIterations
    requires rows != []
    requires rows == FrameRows(driver, |frames|, policy.maxRows, policy.maxIterations - |Concat(frames, |frames|)|)
    ensures ClaimedInTurn(policy, driver, frames + [rows])
  {
    hide FrameRows, Concat;
    var frames' := frames + [rows];
    forall f | 0 <= f <= |frames|
      ensures Concat(frames', f) == Concat(frames, f)
    {
      ConcatOfMore(frames, rows, f);
    }
  }

  lemma FrameFits(driver: Driver, frame: nat, maxRows: int, remaining: nat)
    requires remaining > 0
    ensures |FrameRows(driver, frame, maxRows, remaining)| <= remaining
  {
  }

  /** A frame executes at least one row and stays under the cap. */
  lemma {:induction false} FrameAdds(policy: Policy, driver: Driver, tasks: Tasks, frames: seq<seq<Row>>,
                                     rows: seq<Row>, executed: seq<Executed>, statuses: seq<RowStatus>)
    requires |executed| == |Concat(frames, |frames|)| < policy.maxIterations
    requires rows != [] && rows == FrameRows(driver, |frames|, policy.maxRows, policy.maxIterations - |executed|)
    requires FrameStatuses(policy, tasks, |executed|, rows, statuses)
    ensures |statuses| <= |rows|
    ensures var executed' := executed + ExecutedOf(policy, tasks, |executed|, rows, |statuses|);
            && |executed| < |executed'| == |executed| + |statuses| <= policy.maxIterations
            && (|statuses| < |rows| ==> CutShort(policy, frames + [rows], executed') && Count(statuses, RowBreak) > 0)
  {
    hide Count, FrameRows, Concat, Breaks, StatusOf;
    StatusesOfFrame(policy, tasks, |executed|, rows, statuses);
    FrameFits(driver, |frames|, policy.maxRows, policy.maxIterations - |executed|);
    ConcatOfMore(frames, rows, |frames|);
    if |statuses| < |rows| {
      assert statuses[|statuses| - 1] in statuses;
      var more := ExecutedOf(policy, tasks, |executed|, rows, |statuses|);
      StatusIff(more[|statuses| - 1].raw);
      assert StatusesOf(more)[|statuses| - 1] == statuses[|statuses| - 1];
      CountIn(statuses, RowBreak);
    }
  }
}
