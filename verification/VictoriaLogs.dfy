/** The log handler: callers put entries on a bounded queue, a worker thread moves them
    to a shared batch and sends it, and flush sends the shared batch as well. */
module VictoriaLogs {
  import opened Base

  type Entry = nat

  datatype Settings = Settings(batchSize: int, flushInterval: real, maxQueueSize: int, retryAttempts: int)

  /** The fields the threads share. */
  datatype Shared = Shared(
    queue: seq<Entry>, batch: seq<Entry>, lastFlush: real, stopped: bool,
    logsSent: nat, logsDropped: nat, sendFailures: nat)

  const FRESH := Shared([], [], 0.0, false, 0, 0, 0)

  /** How one POST ends; any other exception leaves the sender at once. */
  datatype Answer = Accepted | RequestFailed | OtherError

  /** What becomes of a batch. A loss is counted in send_failures only when the last of
      the attempts failed. */
  datatype Fate = Sent | Lost(counted: bool)

  /** A queue of size zero or less is unbounded. */
  predicate QueueFull(cfg: Settings, sh: Shared) {
    cfg.maxQueueSize > 0 && |sh.queue| >= cfg.maxQueueSize
  }

  function Emitted(cfg: Settings, sh: Shared, e: Entry): Shared {
    if QueueFull(cfg, sh) then sh.(logsDropped := sh.logsDropped + 1) else sh.(queue := sh.queue + [e])
  }

  predicate FlushDue(cfg: Settings, sh: Shared, now: real) {
    |sh.batch| >= cfg.batchSize || (|sh.batch| > 0 && now - sh.lastFlush >= cfg.flushInterval)
  }

  function BatchTaken(sh: Shared, now: real): Shared {
    sh.(batch := [], lastFlush := now)
  }

  function Counted(sh: Shared, n: nat, fate: Fate): Shared {
    match fate
    case Sent => sh.(logsSent := sh.logsSent + n)
    case Lost(true) => sh.(sendFailures := sh.sendFailures + 1)
    case Lost(false) => sh
  }

  /** The fate of a batch after attempt `k` was answered; none when another attempt follows. */
  function AfterAttempt(cfg: Settings, k: nat, answer: Answer): Option<Fate> {
    match answer
    case Accepted => Some(Sent)
    case RequestFailed => if k == cfg.retryAttempts - 1 then Some(Lost(true)) else None
    case OtherError => Some(Lost(false))
  }

  /** What sending a batch must come to: the first answer other than a failed request
      decides; with none among the attempts the batch is lost, and a handler that makes
      no attempts does not count it. */
  ghost predicate FateOfSending(cfg: Settings, answers: nat -> Answer, fate: Fate) {
    if k: nat :| k < cfg.retryAttempts && !answers(k).RequestFailed? &&
                 forall j: nat | j < k :: answers(j).RequestFailed?
    then fate == (if answers(k).Accepted? then Sent else Lost(false))
    else fate == Lost(cfg.retryAttempts > 0)
  }

  /** The fate a sender arrives at by making attempts one by one from attempt `k`. */
  function FateFrom(cfg: Settings, answers: nat -> Answer, k: nat): Fate
    requires k < cfg.retryAttempts
    decreases cfg.retryAttempts - k
  {
    var fate := AfterAttempt(cfg, k, answers(k));
    if fate.Some? then fate.value else FateFrom(cfg, answers, k + 1)
  }

  lemma {:induction false} AttemptsDecideFate(cfg: Settings, answers: nat -> Answer, k: nat)
    requires k < cfg.retryAttempts && forall j: nat | j < k :: answers(j).RequestFailed?
    ensures FateOfSending(cfg, answers, FateFrom(cfg, answers, k))
    decreases cfg.retryAttempts - k
  {
    if AfterAttempt(cfg, k, answers(k)).None? {
      AttemptsDecideFate(cfg, answers, k + 1);
    }
  }

  class Handler {
    const cfg: Settings
    var queue: seq<Entry>
    var batch: seq<Entry>
    var lastFlush: real
    var stopped: bool
    var logsSent: nat
    var logsDropped: nat
    var sendFailures: nat

    constructor (c: Settings, now: real)
      ensures cfg == c && Snapshot() == FRESH.(lastFlush := now)
    {
      cfg, queue, batch, lastFlush, stopped := c, [], [], now, false;
      logsSent, logsDropped, sendFailures := 0, 0, 0;
    }

    function Snapshot(): Shared
      reads this
    {
      Shared(queue, batch, lastFlush, stopped, logsSent, logsDropped, sendFailures)
    }

    method Emit(e: Entry)
      modifies this
      ensures Snapshot() == Emitted(cfg, old(Snapshot()), e)
    {
      if cfg.maxQueueSize > 0 && |queue| >= cfg.maxQueueSize {
        logsDropped := logsDropped + 1;
      } else {
        queue := queue + [e];
      }
    }

    /** The worker's section that decides whether to flush, under the lock. */
    method TakeIfDue(now: real) returns (toSend: seq<Entry>)
      modifies this
      ensures var before := old(Snapshot());
              if FlushDue(cfg, before, now)
              then toSend == before.batch && Snapshot() == BatchTaken(before, now)
              else toSend == [] && Snapshot() == before
    {
      toSend := [];
      if |batch| >= cfg.batchSize || (|batch| > 0 && now - lastFlush >= cfg.flushInterval) {
        toSend := batch;
        batch := [];
        lastFlush := now;
      }
    }

    method SendBatch(toSend: seq<Entry>, answers: nat -> Answer)
      modifies this
      ensures if toSend == [] then Snapshot() == old(Snapshot())
              else exists fate :: FateOfSending(cfg, answers, fate) &&
                                  Snapshot() == Counted(old(Snapshot()), |toSend|, fate)
    {
      if toSend == [] {
        return;
      }
      ghost var before := Snapshot();
      var k: nat := 0;
      while k < cfg.retryAttempts
        invariant Snapshot() == before
        invariant forall j: nat | j < k :: answers(j).RequestFailed?
        invariant k == 0 || k < cfg.retryAttempts
        decreases cfg.retryAttempts - k
      {
        match answers(k) {
          case Accepted =>
            logsSent := logsSent + |toSend|;
            assert FateOfSending(cfg, answers, Sent);
            return;
          case OtherError =>
            assert FateOfSending(cfg, answers, Lost(false));
            assert Snapshot() == Counted(before, |toSend|, Lost(false));
            return;
          case RequestFailed =>
            if k == cfg.retryAttempts - 1 {
              sendFailures := sendFailures + 1;
              assert FateOfSending(cfg, answers, Lost(true));
              return;
            }
        }
        k := k + 1;
      }
      assert FateOfSending(cfg, answers, Lost(false));
      assert Snapshot() == Counted(before, |toSend|, Lost(false));
    }

    /** Takes and sends the shared batch without letting go of the lock. */
    method Flush(now: real, answers: nat -> Answer)
      modifies this
      ensures var before := old(Snapshot());
              if before.batch == [] then Snapshot() == before
              else exists fate :: FateOfSending(cfg, answers, fate) &&
                                  Snapshot() == Counted(BatchTaken(before, now), |before.batch|, fate)
    {
      if batch != [] {
        var toSend := batch;
        batch := [];
        lastFlush := now;
        SendBatch(toSend, answers);
      }
    }

    /** Stops the worker and flushes the shared batch; the queue is left as it is. */
    method Close(now: real, answers: nat -> Answer)
      modifies this
      ensures var before := old(Snapshot()).(stopped := true);
              if before.batch == [] then Snapshot() == before
              else exists fate :: FateOfSending(cfg, answers, fate) &&
                                  Snapshot() == Counted(BatchTaken(before, now), |before.batch|, fate)
    {
      stopped := true;
      Flush(now, answers);
    }
  }
}
