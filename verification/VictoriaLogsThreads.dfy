/** The log handler's threads: any interleaving of callers, the worker, flush and close.

    Sections under the handler's lock, queue operations, POSTs, and reading and writing a
    counter are single steps. A flush holds the lock while it sends and counts; the worker
    does neither under it. */
module VictoriaLogsThreads {
  import opened Base
  import opened VictoriaLogs

  /** A batch that left the shared list, and what became of it. */
  datatype Shipment = Shipment(entries: seq<Entry>, fate: Option<Fate>)

  datatype Counter = LogsSent | SendFailures

  /** Adding `n` to a counter: it is read first and written later. `read` is what was read. */
  datatype Update = Update(counter: Counter, n: nat, read: Option<nat>)

  /** Where the worker is: at its loop test, waiting on the queue, holding an entry it
      took, about to decide on a flush, sending, adding to a counter, or gone. */
  datatype Worker =
    | Testing | Waiting | Holding(e: Entry) | Deciding
    | Sending(ship: nat, attempt: nat) | WorkerAdds(u: Update) | Gone

  /** The flush that holds the lock, if any. */
  datatype Flusher = NoFlush | Flushing(ship: nat, attempt: nat) | FlushAdds(u: Update)

  /** `accepted` and `rejected` record the entries given to emit. */
  datatype State = State(
    now: real, sh: Shared, worker: Worker, flusher: Flusher,
    shipments: seq<Shipment>, accepted: seq<Entry>, rejected: seq<Entry>)

  datatype Step =
    | Emit(e: Entry)
    | Test
    | Get
    | GetTimesOut
    | Append
    | Decide
    | WorkerPosts(answer: Answer)
    | WorkerReads
    | WorkerWrites
    | FlushTakes
    | FlushPosts(answer: Answer)
    | FlushReads
    | FlushWrites
    | Stop
    | Pass(dt: real)

  predicate Enabled(s: State, step: Step) {
    match step
    case Emit(_) => true
    case Test => s.worker.Testing?
    case Get => s.worker.Waiting? && s.sh.queue != []
    case GetTimesOut => s.worker.Waiting? && s.sh.queue == []
    case Append => s.worker.Holding? && s.flusher.NoFlush?
    case Decide => s.worker.Deciding? && s.flusher.NoFlush?
    case WorkerPosts(_) => s.worker.Sending? && s.worker.ship < |s.shipments|
    case WorkerReads => s.worker.WorkerAdds? && s.worker.u.read.None?
    case WorkerWrites => s.worker.WorkerAdds? && s.worker.u.read.Some?
    case FlushTakes => s.flusher.NoFlush?
    case FlushPosts(_) => s.flusher.Flushing? && s.flusher.ship < |s.shipments|
    case FlushReads => s.flusher.FlushAdds? && s.flusher.u.read.None?
    case FlushWrites => s.flusher.FlushAdds? && s.flusher.u.read.Some?
    case Stop => true
    case Pass(dt) => dt >= 0.0
  }

  /** The shared batch leaves the list. A handler without attempts gives it up unsent. */
  function Ship(cfg: Settings, s: State): State {
    s.(sh := BatchTaken(s.sh, s.now),
       shipments := s.shipments + [Shipment(s.sh.batch, if cfg.retryAttempts <= 0 then Some(Lost(false)) else None)])
  }

  function Settled(s: State, ship: nat, fate: Fate): State
    requires ship < |s.shipments|
  {
    s.(shipments := s.shipments[ship := s.shipments[ship].(fate := Some(fate))])
  }

  /** What the sender of `n` entries then adds to a counter, if anything. */
  function UpdateFor(fate: Fate, n: nat): Option<Update> {
    match fate
    case Sent => Some(Update(LogsSent, n, None))
    case Lost(true) => Some(Update(SendFailures, 1, None))
    case Lost(false) => None
  }

  function ValueOf(sh: Shared, c: Counter): nat {
    match c
    case LogsSent => sh.logsSent
    case SendFailures => sh.sendFailures
  }

  function WithValue(sh: Shared, c: Counter, v: nat): Shared {
    match c
    case LogsSent => sh.(logsSent := v)
    case SendFailures => sh.(sendFailures := v)
  }

  /** An update that nothing comes between counts the batch as the handler's methods do. */
  lemma UndisturbedUpdateCounts(sh: Shared, n: nat, fate: Fate)
    ensures Counted(sh, n, fate)
         == match UpdateFor(fate, n)
            case None => sh
            case Some(u) => WithValue(sh, u.counter, ValueOf(sh, u.counter) + u.n)
  {
  }

  function Next(cfg: Settings, s: State, step: Step): State
    requires Enabled(s, step)
  {
    match step
    case Emit(e) =>
      if QueueFull(cfg, s.sh) then s.(sh := Emitted(cfg, s.sh, e), rejected := s.rejected + [e])
      else s.(sh := Emitted(cfg, s.sh, e), accepted := s.accepted + [e])
    case Test => s.(worker := if s.sh.stopped then Gone else Waiting)
    case Get => s.(worker := Holding(s.sh.queue[0]), sh := s.sh.(queue := s.sh.queue[1..]))
    case GetTimesOut => s.(worker := Deciding)
    case Append => s.(worker := Deciding, sh := s.sh.(batch := s.sh.batch + [s.worker.e]))
    case Decide =>
      if !FlushDue(cfg, s.sh, s.now) then s.(worker := Testing)
      else if s.sh.batch == [] then s.(worker := Testing, sh := BatchTaken(s.sh, s.now))
      else if cfg.retryAttempts <= 0 then Ship(cfg, s).(worker := Testing)
      else Ship(cfg, s).(worker := Sending(|s.shipments|, 0))
    case WorkerPosts(answer) =>
      var fate := AfterAttempt(cfg, s.worker.attempt, answer);
      if fate.None? then s.(worker := s.worker.(attempt := s.worker.attempt + 1))
      else
        var u := UpdateFor(fate.value, |s.shipments[s.worker.ship].entries|);
        Settled(s, s.worker.ship, fate.value).(worker := if u.None? then Testing else WorkerAdds(u.value))
    case WorkerReads =>
      s.(worker := WorkerAdds(s.worker.u.(read := Some(ValueOf(s.sh, s.worker.u.counter)))))
    case WorkerWrites =>
      s.(worker := Testing, sh := WithValue(s.sh, s.worker.u.counter, s.worker.u.read.value + s.worker.u.n))
    case FlushTakes =>
      if s.sh.batch == [] then s
      else if cfg.retryAttempts <= 0 then Ship(cfg, s)
      else Ship(cfg, s).(flusher := Flushing(|s.shipments|, 0))
    case FlushPosts(answer) =>
      var fate := AfterAttempt(cfg, s.flusher.attempt, answer);
      if fate.None? then s.(flusher := s.flusher.(attempt := s.flusher.attempt + 1))
      else
        var u := UpdateFor(fate.value, |s.shipments[s.flusher.ship].entries|);
        Settled(s, s.flusher.ship, fate.value).(flusher := if u.None? then NoFlush else FlushAdds(u.value))
    case FlushReads =>
      s.(flusher := FlushAdds(s.flusher.u.(read := Some(ValueOf(s.sh, s.flusher.u.counter)))))
    case FlushWrites =>
      s.(flusher := NoFlush, sh := WithValue(s.sh, s.flusher.u.counter, s.flusher.u.read.value + s.flusher.u.n))
    case Stop => s.(sh := s.sh.(stopped := true))
    case Pass(dt) => s.(now := s.now + dt)
  }

  predicate Runs(cfg: Settings, s: State, steps: seq<Step>)
    decreases |steps|
  {
    steps == [] || (Enabled(s, steps[0]) && Runs(cfg, Next(cfg, s, steps[0]), steps[1..]))
  }

  function Exec(cfg: Settings, s: State, steps: seq<Step>): State
    requires Runs(cfg, s, steps)
    decreases |steps|
  {
    if steps == [] then s else Exec(cfg, Next(cfg, s, steps[0]), steps[1..])
  }

  const START := State(0.0, FRESH, Testing, NoFlush, [], [], [])

  // ---------------------------------------------------------------------------
  // Conservation

  /** All entries of the first `k` shipments, in the order the batches left the list. */
  function Shipped(ships: seq<Shipment>, k: nat): seq<Entry>
    requires k <= |ships|
  {
    if k == 0 then [] else Shipped(ships, k - 1) + ships[k - 1].entries
  }

  /** What a settled shipment should add to a counter. */
  function Weight(ship: Shipment, c: Counter): nat {
    match c
    case LogsSent => if ship.fate == Some(Sent) then |ship.entries| else 0
    case SendFailures => if ship.fate == Some(Lost(true)) then 1 else 0
  }

  /** What the counter should show for the first `k` shipments: the number of entries
      sent, or of batches lost after a last failed attempt. */
  function Total(ships: seq<Shipment>, k: nat, c: Counter): nat
    requires k <= |ships|
  {
    if k == 0 then 0 else Total(ships, k - 1, c) + Weight(ships[k - 1], c)
  }

  lemma {:induction false} TotalsOfMore(ships: seq<Shipment>, more: Shipment, k: nat, c: Counter)
    requires k <= |ships|
    ensures Shipped(ships + [more], k) == Shipped(ships, k)
    ensures Total(ships + [more], k, c) == Total(ships, k, c)
  {
    if k > 0 {
      TotalsOfMore(ships, more, k - 1, c);
    }
  }

  lemma {:induction false} TotalsOfSettled(ships: seq<Shipment>, at: nat, fate: Fate, k: nat, c: Counter)
    requires at < |ships| && k <= |ships| && ships[at].fate.None?
    ensures var ship' := ships[at].(fate := Some(fate));
            && Shipped(ships[at := ship'], k) == Shipped(ships, k)
            && Total(ships[at := ship'], k, c) == Total(ships, k, c) + (if at < k then Weight(ship', c) else 0)
  {
    if k > 0 {
      TotalsOfSettled(ships, at, fate, k - 1, c);
    }
  }

  function InHand(w: Worker): seq<Entry> {
    if w.Holding? then [w.e] else []
  }

  /** The entries not shipped yet: in the shared batch, the worker's hand and the queue. */
  function Unshipped(s: State): seq<Entry> {
    s.sh.batch + InHand(s.worker) + s.sh.queue
  }

  /** Every accepted entry is at exactly one place, and the places are in the order the
      entries were accepted. */
  ghost predicate Conserved(s: State) {
    && s.accepted == Shipped(s.shipments, |s.shipments|) + Unshipped(s)
    && s.sh.logsDropped == |s.rejected|
  }

  /** The only batch in flight is the worker's or the flusher's. */
  ghost predicate InFlightExact(cfg: Settings, s: State) {
    && (forall i | 0 <= i < |s.shipments| :: s.shipments[i].entries != [] &&
          (s.shipments[i].fate.None? <==>
             (s.worker.Sending? && s.worker.ship == i) || (s.flusher.Flushing? && s.flusher.ship == i)))
    && (s.worker.Sending? ==> s.worker.ship < |s.shipments| && s.worker.attempt < cfg.retryAttempts)
    && (s.flusher.Flushing? ==> s.flusher.ship < |s.shipments| && s.flusher.attempt < cfg.retryAttempts)
  }

  /** The worker and a flush never send, or count what they sent, at the same time. */
  ghost predicate OneSender(s: State) {
    s.worker.Sending? || s.worker.WorkerAdds? ==> s.sh.batch == [] && s.flusher.NoFlush?
  }

  function Cap(cfg: Settings): int {
    if cfg.batchSize >= 1 then cfg.batchSize else 1
  }

  /** The shared batch is full at most between an append and the decision to flush, and
      empty while a flush holds the lock; the queue keeps to its size. */
  ghost predicate Bounded(cfg: Settings, s: State) {
    && |s.sh.batch| <= Cap(cfg)
    && (!s.worker.Deciding? ==> |s.sh.batch| < Cap(cfg))
    && (!s.flusher.NoFlush? ==> s.sh.batch == [])
    && (cfg.maxQueueSize > 0 ==> |s.sh.queue| <= cfg.maxQueueSize)
  }

  ghost predicate Valid(cfg: Settings, s: State) {
    Conserved(s) && InFlightExact(cfg, s) && OneSender(s) && Bounded(cfg, s)
  }

  /** The step takes the shared batch away. */
  predicate Ships(cfg: Settings, s: State, step: Step) {
    s.sh.batch != [] && ((step.Decide? && FlushDue(cfg, s.sh, s.now)) || step.FlushTakes?)
  }

  /** The batch whose sending the step decides, and its fate. */
  function Settles(cfg: Settings, s: State, step: Step): Option<(nat, Fate)>
    requires Enabled(s, step)
  {
    match step
    case WorkerPosts(answer) =>
      var fate := AfterAttempt(cfg, s.worker.attempt, answer);
      if fate.Some? then Some((s.worker.ship, fate.value)) else None
    case FlushPosts(answer) =>
      var fate := AfterAttempt(cfg, s.flusher.attempt, answer);
      if fate.Some? then Some((s.flusher.ship, fate.value)) else None
    case _ => None
  }

  /** A step ships the batch, or settles a shipment, or leaves the shipments alone. */
  lemma ShipmentsOfStep(cfg: Settings, s: State, step: Step)
    requires Enabled(s, step)
    ensures var t := Next(cfg, s, step);
            if Ships(cfg, s, step) then t.shipments == Ship(cfg, s).shipments
            else
              match Settles(cfg, s, step)
              case None => t.shipments == s.shipments
              case Some((i, fate)) =>
                i < |s.shipments| && t.shipments == s.shipments[i := s.shipments[i].(fate := Some(fate))]
  {
    hide FlushDue, AfterAttempt, UpdateFor, ValueOf, WithValue;
  }

  /** So the shipped entries grow by the batch that is shipped, and what a counter should
      show grows by what the settled shipment should add. */
  lemma {:induction false} TotalsOfStep(cfg: Settings, s: State, step: Step, c: Counter)
    requires InFlightExact(cfg, s) && Enabled(s, step)
    ensures var t := Next(cfg, s, step);
            && Shipped(t.shipments, |t.shipments|)
               == Shipped(s.shipments, |s.shipments|) + (if Ships(cfg, s, step) then s.sh.batch else [])
            && Total(t.shipments, |t.shipments|, c)
               == Total(s.shipments, |s.shipments|, c)
                + match Settles(cfg, s, step)
                  case None => 0
                  case Some((i, fate)) =>
                    if i < |s.shipments| then Weight(Shipment(s.shipments[i].entries, Some(fate)), c) else 0
  {
    hide Next, FlushDue, AfterAttempt;
    ShipmentsOfStep(cfg, s, step);
    if Ships(cfg, s, step) {
      TotalsOfMore(s.shipments, Ship(cfg, s).shipments[|s.shipments|], |s.shipments|, c);
    } else if Settles(cfg, s, step).Some? {
      var (i, fate) := Settles(cfg, s, step).value;
      TotalsOfSettled(s.shipments, i, fate, |s.shipments|, c);
    }
  }

  predicate Moves(step: Step) {
    step.Emit? || step.Get? || step.Append? || step.Decide? || step.FlushTakes?
  }

  lemma OtherStepsMoveNothing(cfg: Settings, s: State, step: Step)
    requires Enabled(s, step) && !Moves(step)
    ensures var t := Next(cfg, s, step);
            && t.sh.batch == s.sh.batch && InHand(t.worker) == InHand(s.worker) && t.sh.queue == s.sh.queue
            && t.accepted == s.accepted && t.rejected == s.rejected && t.sh.logsDropped == s.sh.logsDropped
  {
    hide AfterAttempt, UpdateFor, ValueOf;
  }

  lemma SameUnshipped(cfg: Settings, s: State, t: State, step: Step)
    requires t.sh.batch == s.sh.batch && InHand(t.worker) == InHand(s.worker) && t.sh.queue == s.sh.queue
    requires !Moves(step)
    ensures !Ships(cfg, s, step) && [] + Unshipped(t) == Unshipped(s) + []
  {
  }

  lemma BatchLeaves(cfg: Settings, s: State, step: Step)
    requires Enabled(s, step) && (step.Decide? || step.FlushTakes?)
    ensures var t := Next(cfg, s, step);
            && t.accepted == s.accepted && t.sh.logsDropped == s.sh.logsDropped && t.rejected == s.rejected
            && (if Ships(cfg, s, step) then s.sh.batch else []) + Unshipped(t) == Unshipped(s)
  {
    hide FlushDue;
    assert s.sh.batch + ([] + InHand(s.worker) + s.sh.queue) == Unshipped(s);
  }

  /** A step takes unshipped entries only from the front, and adds only what it accepts. */
  lemma UnshippedOfStep(cfg: Settings, s: State, step: Step)
    requires Enabled(s, step)
    ensures var t := Next(cfg, s, step);
            var added := if step.Emit? && !QueueFull(cfg, s.sh) then [step.e] else [];
            && t.accepted == s.accepted + added
            && (if Ships(cfg, s, step) then s.sh.batch else []) + Unshipped(t) == Unshipped(s) + added
            && (s.sh.logsDropped == |s.rejected| ==> t.sh.logsDropped == |t.rejected|)
  {
    if step.Emit? {
      assert Unshipped(s) + [step.e] == s.sh.batch + InHand(s.worker) + (s.sh.queue + [step.e]);
    } else if step.Get? {
      assert s.sh.batch + [s.sh.queue[0]] + s.sh.queue[1..] == s.sh.batch + s.sh.queue;
      assert s.sh.batch + [] == s.sh.batch;
    } else if step.Append? {
      assert s.sh.batch + [s.worker.e] + [] == s.sh.batch + [s.worker.e];
    } else {
      hide Next, Enabled, Unshipped, Ships;
      if step.Decide? || step.FlushTakes? {
        BatchLeaves(cfg, s, step);
      } else {
        OtherStepsMoveNothing(cfg, s, step);
        SameUnshipped(cfg, s, Next(cfg, s, step), step);
      }
    }
  }

  lemma StepKeepsConserved(cfg: Settings, s: State, step: Step)
    requires Conserved(s) && InFlightExact(cfg, s) && Enabled(s, step)
    ensures Conserved(Next(cfg, s, step))
  {
    hide Next, Enabled, Ships, Shipped, Total, InFlightExact, Settles, Unshipped, QueueFull;
    TotalsOfStep(cfg, s, step, LogsSent);
    UnshippedOfStep(cfg, s, step);
    var t := Next(cfg, s, step);
    var shipped := Shipped(s.shipments, |s.shipments|);
    var taken := if Ships(cfg, s, step) then s.sh.batch else [];
    assert shipped + (taken + Unshipped(t)) == shipped + taken + Unshipped(t);
  }

  lemma StepKeepsInFlight(cfg: Settings, s: State, step: Step)
    requires InFlightExact(cfg, s) && OneSender(s) && Enabled(s, step)
    ensures InFlightExact(cfg, Next(cfg, s, step))
  {
    hide FlushDue, ValueOf, WithValue;
  }

  lemma StepKeepsOneSender(cfg: Settings, s: State, step: Step)
    requires OneSender(s) && Enabled(s, step)
    ensures OneSender(Next(cfg, s, step))
  {
    hide FlushDue, AfterAttempt, ValueOf;
  }

  lemma StepKeepsBounded(cfg: Settings, s: State, step: Step)
    requires Bounded(cfg, s) && Enabled(s, step)
    ensures Bounded(cfg, Next(cfg, s, step))
  {
    hide AfterAttempt, UpdateFor, ValueOf;
  }

  lemma StepKeepsValid(cfg: Settings, s: State, step: Step)
    requires Valid(cfg, s) && Enabled(s, step)
    ensures Valid(cfg, Next(cfg, s, step))
  {
    hide Conserved, InFlightExact, OneSender, Bounded, Next, Enabled;
    StepKeepsConserved(cfg, s, step);
    StepKeepsInFlight(cfg, s, step);
    StepKeepsOneSender(cfg, s, step);
    StepKeepsBounded(cfg, s, step);
  }

  lemma {:induction false} RunKeepsValid(cfg: Settings, s: State, steps: seq<Step>)
    requires Valid(cfg, s) && Runs(cfg, s, steps)
    ensures Valid(cfg, Exec(cfg, s, steps))
    decreases |steps|
  {
    hide Valid, Enabled, Next;
    if steps != [] {
      StepKeepsValid(cfg, s, steps[0]);
      RunKeepsValid(cfg, Next(cfg, s, steps[0]), steps[1..]);
    }
  }

  /** The conservation law, in every reachable state. */
  lemma {:induction false} LogConservation(cfg: Settings, steps: seq<Step>)
    requires Runs(cfg, START, steps)
    ensures var s := Exec(cfg, START, steps);
            && s.accepted == Shipped(s.shipments, |s.shipments|) + (s.sh.batch + InHand(s.worker) + s.sh.queue)
            && s.sh.logsDropped == |s.rejected|
            && |s.sh.batch| <= (if cfg.batchSize >= 1 then cfg.batchSize else 1)
            && (cfg.maxQueueSize > 0 ==> |s.sh.queue| <= cfg.maxQueueSize)
  {
    assert Valid(cfg, START);
    RunKeepsValid(cfg, START, steps);
  }

  // ---------------------------------------------------------------------------
  // What is accepted, and when it is sent

  /** An entry is accepted, at the end of the queue, exactly when the queue is unbounded or
      has room; otherwise it is counted as dropped and changes nothing else. */
  lemma EmitAcceptsIff(cfg: Settings, s: State, e: Entry)
    ensures var t := Next(cfg, s, Emit(e));
            if cfg.maxQueueSize <= 0 || |s.sh.queue| < cfg.maxQueueSize
            then t == s.(accepted := s.accepted + [e], sh := s.sh.(queue := s.sh.queue + [e]))
            else t == s.(rejected := s.rejected + [e], sh := s.sh.(logsDropped := s.sh.logsDropped + 1))
  {
  }

  function Burst(entries: seq<Entry>): seq<Step> {
    seq(|entries|, i requires 0 <= i < |entries| => Emit(entries[i]))
  }

  /** How many of `k` entries there is room for. */
  function Room(cfg: Settings, s: State, k: nat): nat {
    if cfg.maxQueueSize <= 0 then k
    else if |s.sh.queue| >= cfg.maxQueueSize then 0
    else if k <= cfg.maxQueueSize - |s.sh.queue| then k
    else cfg.maxQueueSize - |s.sh.queue|
  }

  /** Of entries emitted in a row, the first are accepted and queued in order, as many as
      there is room for, and the others are dropped; so all are accepted exactly when there
      is room for all. */
  lemma {:induction false} BurstFillsQueue(cfg: Settings, s: State, entries: seq<Entry>)
    ensures Runs(cfg, s, Burst(entries))
    ensures var t := Exec(cfg, s, Burst(entries));
            var n := Room(cfg, s, |entries|);
            && n <= |entries|
            && t.sh.queue == s.sh.queue + entries[..n] && t.accepted == s.accepted + entries[..n]
            && t.rejected == s.rejected + entries[n..] && t.sh.logsDropped == s.sh.logsDropped + |entries| - n
    decreases |entries|
  {
    hide Runs, Exec, Next, Enabled;
    if entries == [] {
      Nothing(cfg, s);
      assert Burst(entries) == [];
    } else {
      var e, rest := entries[0], entries[1..];
      EmitIsEnabled(s, e);
      EmitAcceptsIff(cfg, s, e);
      BurstFillsQueue(cfg, Next(cfg, s, Emit(e)), rest);
      Prepend(cfg, s, Emit(e), Burst(rest));
      assert Burst(entries) == [Emit(e)] + Burst(rest);
      var n := Room(cfg, s, |entries|);
      if n > 0 {
        assert entries[..n] == [e] + rest[..n - 1] && entries[n..] == rest[n - 1..];
      } else {
        assert entries[0..] == [e] + rest[0..];
      }
    }
  }

  lemma EmitIsEnabled(s: State, e: Entry)
    ensures Enabled(s, Emit(e))
  {
  }

  /** The entries a run emits, in order. */
  function Emits(steps: seq<Step>): seq<Entry> {
    if steps == [] then []
    else (if steps[0].Emit? then [steps[0].e] else []) + Emits(steps[1..])
  }

  /** In every run each emitted entry is accepted or rejected, once, and nothing else is. */
  lemma {:induction false} EveryEmitIsAnswered(cfg: Settings, s: State, steps: seq<Step>)
    requires Runs(cfg, s, steps)
    ensures var t := Exec(cfg, s, steps);
            multiset(t.accepted) + multiset(t.rejected) ==
            multiset(s.accepted) + multiset(s.rejected) + multiset(Emits(steps))
    decreases |steps|
  {
    hide Next, Enabled;
    if steps != [] {
      RecordsOfStep(cfg, s, steps[0]);
      EveryEmitIsAnswered(cfg, Next(cfg, s, steps[0]), steps[1..]);
    }
  }

  lemma RecordsOfStep(cfg: Settings, s: State, step: Step)
    requires Enabled(s, step)
    ensures var t := Next(cfg, s, step);
            if !step.Emit? then t.accepted == s.accepted && t.rejected == s.rejected
            else || (t.accepted == s.accepted + [step.e] && t.rejected == s.rejected)
                 || (t.accepted == s.accepted && t.rejected == s.rejected + [step.e])
  {
  }

  /** The worker ships the shared batch exactly when it is as large as the batch size, or
      not empty and an interval old; then the list is empty and a new interval begins. An
      empty batch is never shipped, though a batch size of zero begins an interval. */
  lemma DecideShipsIff(cfg: Settings, s: State)
    requires Enabled(s, Decide)
    ensures var t := Next(cfg, s, Decide);
            if s.sh.batch == [] then
              t == s.(worker := Testing, sh := if cfg.batchSize <= 0 then s.sh.(lastFlush := s.now) else s.sh)
            else if |s.sh.batch| >= cfg.batchSize || s.now - s.sh.lastFlush >= cfg.flushInterval then
              && |t.shipments| == |s.shipments| + 1 && t.shipments[..|s.shipments|] == s.shipments
              && t.shipments[|s.shipments|].entries == s.sh.batch
              && t.sh == s.sh.(batch := [], lastFlush := s.now)
              && (cfg.retryAttempts >= 1 ==> t.worker == Sending(|s.shipments|, 0))
            else
              t == s.(worker := Testing)
  {
  }

  /** A worker that waits in vain looks at the batch all the same: one that is an interval old
      is shipped although nothing arrives. */
  lemma IdleWorkerFlushes(cfg: Settings, s: State, dt: real)
    requires s.worker.Waiting? && s.sh.queue == [] && s.flusher.NoFlush? && s.sh.batch != []
    requires dt >= 0.0 && s.now + dt - s.sh.lastFlush >= cfg.flushInterval
    ensures Runs(cfg, s, [Pass(dt), GetTimesOut, Decide])
    ensures var t := Exec(cfg, s, [Pass(dt), GetTimesOut, Decide]);
            && t.sh.batch == [] && t.sh.lastFlush == s.now + dt
            && |t.shipments| == |s.shipments| + 1 && t.shipments[|s.shipments|].entries == s.sh.batch
  {
    hide Runs, Exec;
    var s1 := Next(cfg, s, Pass(dt));
    var s2 := Next(cfg, s1, GetTimesOut);
    Nothing(cfg, Next(cfg, s2, Decide));
    Prepend(cfg, s2, Decide, []);
    assert [Decide] + [] == [Decide];
    assert [GetTimesOut] + [Decide] == [GetTimesOut, Decide];
    Prepend(cfg, s1, GetTimesOut, [Decide]);
    assert [Pass(dt)] + [GetTimesOut, Decide] == [Pass(dt), GetTimesOut, Decide];
    Prepend(cfg, s, Pass(dt), [GetTimesOut, Decide]);
  }

  /** The worker's attempt to send, or a flush's, fails. */
  function AttemptFails(flush: bool): Step {
    if flush then FlushPosts(RequestFailed) else WorkerPosts(RequestFailed)
  }

  /** The worker, or a flush, sends shipment `ship`, and has failed `k` times. */
  predicate SendingFor(s: State, flush: bool, ship: nat, k: nat) {
    ship < |s.shipments| && if flush then s.flusher == Flushing(ship, k) else s.worker == Sending(ship, k)
  }

  /** A batch is tried as often as the settings ask, and given up with the last failure. */
  lemma {:induction false} TriedAsOftenAsAsked(cfg: Settings, s: State, flush: bool, ship: nat, k: nat)
    requires SendingFor(s, flush, ship, 0) && k <= cfg.retryAttempts
    ensures var steps := seq(k, i => AttemptFails(flush));
            && Runs(cfg, s, steps)
            && var t := Exec(cfg, s, steps);
               if k < cfg.retryAttempts || k == 0 then SendingFor(t, flush, ship, k) && t.shipments == s.shipments
               else t.shipments == s.shipments[ship := s.shipments[ship].(fate := Some(Lost(true)))]
  {
    hide Runs, Exec;
    if k == 0 {
      Nothing(cfg, s);
      assert seq(k, i => AttemptFails(flush)) == [];
    } else {
      TriedAsOftenAsAsked(cfg, s, flush, ship, k - 1);
      var before := seq(k - 1, i => AttemptFails(flush));
      var t := Exec(cfg, s, before);
      Nothing(cfg, Next(cfg, t, AttemptFails(flush)));
      Prepend(cfg, t, AttemptFails(flush), []);
      assert [AttemptFails(flush)] + [] == [AttemptFails(flush)];
      RunsOfConcat(cfg, s, before, [AttemptFails(flush)]);
      assert before + [AttemptFails(flush)] == seq(k, i => AttemptFails(flush));
    }
  }

  /** A flush ships whatever the batch holds, and begins a new interval if it holds any. */
  lemma FlushShipsAll(cfg: Settings, s: State)
    requires Enabled(s, FlushTakes) && s.sh.batch != []
    ensures var t := Next(cfg, s, FlushTakes);
            && |t.shipments| == |s.shipments| + 1 && t.shipments[..|s.shipments|] == s.shipments
            && t.shipments[|s.shipments|].entries == s.sh.batch
            && t.sh == s.sh.(batch := [], lastFlush := s.now) && t.worker == s.worker
            && (cfg.retryAttempts >= 1 ==> t.flusher == Flushing(|s.shipments|, 0))
  {
  }

  // ---------------------------------------------------------------------------
  // The counters of sent entries and failed sends

  /** What the threads are adding to the counter. */
  function Pending(s: State, c: Counter): nat {
    (if s.worker.WorkerAdds? && s.worker.u.counter == c then s.worker.u.n else 0)
    + (if s.flusher.FlushAdds? && s.flusher.u.counter == c then s.flusher.u.n else 0)
  }

  /** A counter shows what it should but for what is being added, and whoever has read it
      will write that much more. */
  ghost predicate CounterExact(s: State, c: Counter) {
    && ValueOf(s.sh, c) + Pending(s, c) == Total(s.shipments, |s.shipments|, c)
    && (s.worker.WorkerAdds? && s.worker.u.counter == c && s.worker.u.read.Some? ==>
          s.worker.u.read.value == ValueOf(s.sh, c))
    && (s.flusher.FlushAdds? && s.flusher.u.counter == c && s.flusher.u.read.Some? ==>
          s.flusher.u.read.value == ValueOf(s.sh, c))
  }

  /** Settling a batch starts the update that counts it. */
  lemma PendingOfStep(cfg: Settings, s: State, step: Step, c: Counter)
    requires Enabled(s, step) && InFlightExact(cfg, s)
    ensures var t := Next(cfg, s, step);
            Pending(t, c) ==
              Pending(s, c)
              - (if step.WorkerWrites? && s.worker.u.counter == c then s.worker.u.n else 0)
              - (if step.FlushWrites? && s.flusher.u.counter == c then s.flusher.u.n else 0)
              + match Settles(cfg, s, step)
                case None => 0
                case Some((i, fate)) =>
                  if i < |s.shipments| then Weight(Shipment(s.shipments[i].entries, Some(fate)), c) else 0
  {
    hide FlushDue, AfterAttempt, ValueOf, WithValue;
  }

  lemma StepKeepsCounters(cfg: Settings, s: State, step: Step, c: Counter)
    requires InFlightExact(cfg, s) && OneSender(s) && CounterExact(s, c) && Enabled(s, step)
    ensures CounterExact(Next(cfg, s, step), c)
  {
    hide FlushDue, AfterAttempt, Total, Shipped, InFlightExact, Pending, Settles, Weight;
    TotalsOfStep(cfg, s, step, c);
    PendingOfStep(cfg, s, step, c);
    SettlingWritesNothing(cfg, s, step);
  }

  lemma SettlingWritesNothing(cfg: Settings, s: State, step: Step)
    requires Enabled(s, step)
    ensures step.WorkerWrites? || step.FlushWrites? ==> Settles(cfg, s, step).None?
  {
  }

  lemma {:induction false} RunKeepsCounters(cfg: Settings, s: State, steps: seq<Step>, c: Counter)
    requires Valid(cfg, s) && CounterExact(s, c) && Runs(cfg, s, steps)
    ensures CounterExact(Exec(cfg, s, steps), c)
    decreases |steps|
  {
    hide CounterExact, Next, Enabled, InFlightExact, Conserved, Bounded, OneSender;
    if steps != [] {
      StepKeepsCounters(cfg, s, steps[0], c);
      StepKeepsValid(cfg, s, steps[0]);
      RunKeepsCounters(cfg, Next(cfg, s, steps[0]), steps[1..], c);
    }
  }

  /** Although the worker adds to the counters without the lock, no update is ever lost:
      in every run, what a counter shows and what is being added to it are together what
      it should show. While the worker sends or counts the shared batch is empty, since
      nobody else fills it, so no flush has anything to send or to count. */
  lemma {:induction false} CountersExact(cfg: Settings, steps: seq<Step>, c: Counter)
    requires Runs(cfg, START, steps)
    ensures var s := Exec(cfg, START, steps);
            && ValueOf(s.sh, c) + Pending(s, c) == Total(s.shipments, |s.shipments|, c)
            && ((s.worker.Sending? || s.worker.WorkerAdds?) ==> s.flusher.NoFlush?)
  {
    assert Valid(cfg, START) && CounterExact(START, c);
    RunKeepsCounters(cfg, START, steps, c);
    RunKeepsValid(cfg, START, steps);
  }

  // ---------------------------------------------------------------------------
  // Closing

  /** Nothing is being sent and the worker is gone, as close leaves the handler in the end. */
  predicate AtRest(s: State) {
    s.worker.Gone? && s.flusher.NoFlush?
  }

  /** Once the worker is gone the queue is never read: what it holds stays in front of
      whatever is emitted later. */
  lemma {:induction false} QueueStranded(cfg: Settings, s: State, steps: seq<Step>)
    requires s.worker.Gone? && Runs(cfg, s, steps)
    ensures var t := Exec(cfg, s, steps); t.worker.Gone? && s.sh.queue <= t.sh.queue
    decreases |steps|
  {
    hide FlushDue, AfterAttempt;
    if steps != [] {
      QueueStranded(cfg, Next(cfg, s, steps[0]), steps[1..]);
    }
  }

  /** Whatever is queued when the worker finds the handler stopped is lost to it, in every
      run from there: flush and close never send it. */
  lemma {:induction false} StopStrandsQueue(cfg: Settings, s: State, steps: seq<Step>)
    requires Valid(cfg, s) && s.worker.Testing?
    requires Runs(cfg, Next(cfg, Next(cfg, s, Stop), Test), steps)
    ensures var t := Exec(cfg, Next(cfg, Next(cfg, s, Stop), Test), steps);
            && s.sh.queue <= t.sh.queue
            && t.accepted == Shipped(t.shipments, |t.shipments|) + t.sh.batch + t.sh.queue
  {
    hide Valid;
    var gone := Next(cfg, Next(cfg, s, Stop), Test);
    StepKeepsValid(cfg, s, Stop);
    StepKeepsValid(cfg, Next(cfg, s, Stop), Test);
    RunKeepsValid(cfg, gone, steps);
    QueueStranded(cfg, gone, steps);
    PlacesWhenGone(cfg, Exec(cfg, gone, steps));
  }

  lemma PlacesWhenGone(cfg: Settings, s: State)
    requires Valid(cfg, s) && s.worker.Gone?
    ensures s.accepted == Shipped(s.shipments, |s.shipments|) + s.sh.batch + s.sh.queue
  {
    assert s.sh.batch + [] == s.sh.batch;
  }

  /** Every accepted entry left in a batch whose fate is settled. */
  ghost predicate AllSettled(s: State) {
    && s.accepted == Shipped(s.shipments, |s.shipments|)
    && forall i | 0 <= i < |s.shipments| :: s.shipments[i].fate.Some?
  }

  lemma SettledWhenEmpty(cfg: Settings, s: State)
    requires Valid(cfg, s) && AtRest(s)
    ensures AllSettled(s) <==> s.sh.queue == [] && s.sh.batch == []
  {
    var shipped := Shipped(s.shipments, |s.shipments|);
    PlacesWhenGone(cfg, s);
    assert |s.accepted| == |shipped| + |s.sh.batch| + |s.sh.queue|;
  }

  predicate NoEmit(steps: seq<Step>) {
    forall k | 0 <= k < |steps| :: !steps[k].Emit?
  }

  /** What may happen from a call of close in state `s` until the handler is at rest: it
      stops the worker, a flush takes place, and nobody emits. */
  ghost predicate CloseRun(cfg: Settings, s: State, steps: seq<Step>) {
    var stopped := Next(cfg, s, Stop);
    Runs(cfg, stopped, steps) && NoEmit(steps) && FlushTakes in steps && AtRest(Exec(cfg, stopped, steps))
  }

  /** Close leaves nothing behind, however the threads interleave. */
  ghost predicate CloseSettles(cfg: Settings, s: State) {
    forall steps | CloseRun(cfg, s, steps) :: AllSettled(Exec(cfg, Next(cfg, s, Stop), steps))
  }

  /** A last entry that the worker appends after close's flush is sent at once. If that
      flush takes a batch, it starts a new interval. */
  predicate LastEntryDue(cfg: Settings, s: State) {
    cfg.batchSize <= 1 || cfg.flushInterval <= (if s.sh.batch == [] then s.now - s.sh.lastFlush else 0.0)
  }

  /** The worker takes at most one more entry from the queue, and only if it is waiting
      there already. */
  predicate NothingLeftBehind(cfg: Settings, s: State) {
    match s.worker
    case Waiting => s.sh.queue == [] || (|s.sh.queue| == 1 && LastEntryDue(cfg, s))
    case Holding(_) => s.sh.queue == [] && LastEntryDue(cfg, s)
    case _ => s.sh.queue == []
  }

  /** The shared batch is empty, or the worker is about to send it. */
  predicate Flushed(cfg: Settings, s: State) {
    s.sh.batch == [] || (s.worker.Deciding? && FlushDue(cfg, s.sh, s.now))
  }

  lemma StepLeavesNothing(cfg: Settings, s: State, step: Step)
    requires Bounded(cfg, s) && s.sh.stopped && NothingLeftBehind(cfg, s) && Enabled(s, step) && !step.Emit?
    ensures var t := Next(cfg, s, step);
            && t.sh.stopped && NothingLeftBehind(cfg, t)
            && (Flushed(cfg, s) || step.FlushTakes? ==> Flushed(cfg, t))
  {
    hide AfterAttempt, ValueOf;
  }

  lemma {:induction false} RunLeavesNothing(cfg: Settings, s: State, steps: seq<Step>)
    requires Valid(cfg, s) && s.sh.stopped && NothingLeftBehind(cfg, s)
    requires Runs(cfg, s, steps) && NoEmit(steps)
    ensures var t := Exec(cfg, s, steps);
            NothingLeftBehind(cfg, t) && (Flushed(cfg, s) || FlushTakes in steps ==> Flushed(cfg, t))
    decreases |steps|
  {
    hide Conserved, InFlightExact, OneSender, Bounded, NothingLeftBehind, Flushed, Next, Enabled;
    if steps != [] {
      StepKeepsValid(cfg, s, steps[0]);
      StepLeavesNothing(cfg, s, steps[0]);
      RunLeavesNothing(cfg, Next(cfg, s, steps[0]), steps[1..]);
      assert steps == [steps[0]] + steps[1..];
    }
  }

  // The runs that leave something behind: the flush first, then the worker.

  lemma {:induction false} RunsOfConcat(cfg: Settings, s: State, a: seq<Step>, b: seq<Step>)
    requires Runs(cfg, s, a) && Runs(cfg, Exec(cfg, s, a), b)
    ensures Runs(cfg, s, a + b) && Exec(cfg, s, a + b) == Exec(cfg, Exec(cfg, s, a), b)
    decreases |a|
  {
    hide Enabled, Next;
    if a == [] {
      assert a + b == b;
    } else {
      assert (a + b)[1..] == a[1..] + b;
      RunsOfConcat(cfg, Next(cfg, s, a[0]), a[1..], b);
    }
  }

  lemma {:induction false} Prepend(cfg: Settings, s: State, step: Step, rest: seq<Step>)
    requires Enabled(s, step) && Runs(cfg, Next(cfg, s, step), rest)
    ensures Runs(cfg, s, [step] + rest) && Exec(cfg, s, [step] + rest) == Exec(cfg, Next(cfg, s, step), rest)
  {
    assert ([step] + rest)[1..] == rest;
  }

  /** The flush that holds the lock lets go of it, and the worker stays where it is. */
  lemma {:induction false} FlushEnds(cfg: Settings, s: State) returns (steps: seq<Step>)
    requires Valid(cfg, s)
    ensures Runs(cfg, s, steps) && NoEmit(steps)
    ensures var t := Exec(cfg, s, steps);
            && t.flusher.NoFlush? && t.worker == s.worker && t.now == s.now && t.sh.queue == s.sh.queue
            && t.sh.batch == s.sh.batch && t.sh.lastFlush == s.sh.lastFlush && t.sh.stopped == s.sh.stopped
    decreases match s.flusher
              case NoFlush => 0
              case Flushing(_, _) => 3
              case FlushAdds(u) => if u.read.None? then 2 else 1
  {
    hide Conserved, Bounded, Runs, Exec;
    Nothing(cfg, s);
    if s.flusher.NoFlush? {
      steps := [];
    } else {
      var step :=
        if s.flusher.Flushing? then FlushPosts(Accepted)
        else if s.flusher.u.read.None? then FlushReads
        else FlushWrites;
      StepKeepsValid(cfg, s, step);
      var rest := FlushEnds(cfg, Next(cfg, s, step));
      Prepend(cfg, s, step, rest);
      steps := [step] + rest;
    }
  }

  lemma {:induction false} Nothing(cfg: Settings, s: State)
    ensures Runs(cfg, s, []) && Exec(cfg, s, []) == s
  {
  }

  /** Close's flush runs to its end while the worker stays where it is. */
  lemma FlushRun(cfg: Settings, s: State) returns (steps: seq<Step>)
    requires Valid(cfg, s)
    ensures Runs(cfg, s, steps) && NoEmit(steps) && FlushTakes in steps
    ensures var t := Exec(cfg, s, steps);
            && t.flusher.NoFlush? && t.worker == s.worker && t.sh.queue == s.sh.queue
            && t.sh.batch == [] && t.sh.stopped == s.sh.stopped
            && (LastEntryDue(cfg, t) <==> LastEntryDue(cfg, s))
  {
    hide Valid, Runs, Exec;
    var a := FlushEnds(cfg, s);
    var s1 := Exec(cfg, s, a);
    RunKeepsValid(cfg, s, a);
    StepKeepsValid(cfg, s1, FlushTakes);
    var s2 := Next(cfg, s1, FlushTakes);
    var b := FlushEnds(cfg, s2);
    Prepend(cfg, s1, FlushTakes, b);
    RunsOfConcat(cfg, s, a, [FlushTakes] + b);
    steps := a + ([FlushTakes] + b);
  }

  function WorkerStep(s: State): Step
    requires !s.worker.Gone?
  {
    match s.worker
    case Testing => Test
    case Waiting => if s.sh.queue == [] then GetTimesOut else Get
    case Holding(_) => Append
    case Deciding => Decide
    case Sending(_, _) => WorkerPosts(Accepted)
    case WorkerAdds(u) => if u.read.None? then WorkerReads else WorkerWrites
  }

  function WorkerRank(w: Worker): nat {
    match w
    case Gone => 0
    case Testing => 1
    case WorkerAdds(u) => if u.read.None? then 3 else 2
    case Sending(_, _) => 4
    case Deciding => 5
    case Holding(_) => 6
    case Waiting => 7
  }

  lemma WorkerMoves(cfg: Settings, s: State)
    requires InFlightExact(cfg, s) && s.flusher.NoFlush? && s.sh.stopped && !s.worker.Gone?
    ensures Enabled(s, WorkerStep(s))
    ensures var t := Next(cfg, s, WorkerStep(s));
            && WorkerRank(t.worker) < WorkerRank(s.worker) && t.flusher.NoFlush? && t.sh.stopped
            && t.sh.queue == if s.worker.Waiting? && s.sh.queue != [] then s.sh.queue[1..] else s.sh.queue
  {
    hide FlushDue;
  }

  /** The worker comes to its end, having taken at most one entry from the queue. */
  lemma {:induction false} WorkerEnds(cfg: Settings, s: State) returns (steps: seq<Step>)
    requires Valid(cfg, s) && s.flusher.NoFlush? && s.sh.stopped
    ensures Runs(cfg, s, steps) && NoEmit(steps)
    ensures var t := Exec(cfg, s, steps);
            AtRest(t) && t.sh.queue == if s.worker.Waiting? && s.sh.queue != [] then s.sh.queue[1..] else s.sh.queue
    decreases WorkerRank(s.worker)
  {
    hide Conserved, InFlightExact, OneSender, Bounded, Runs, Exec, Next, Enabled;
    Nothing(cfg, s);
    if s.worker.Gone? {
      steps := [];
    } else {
      WorkerMoves(cfg, s);
      StepKeepsValid(cfg, s, WorkerStep(s));
      var rest := WorkerEnds(cfg, Next(cfg, s, WorkerStep(s)));
      Prepend(cfg, s, WorkerStep(s), rest);
      steps := [WorkerStep(s)] + rest;
    }
  }

  /** The worker appends its last entry and does not send it. */
  lemma LastEntryStays(cfg: Settings, s: State) returns (steps: seq<Step>)
    requires s.flusher.NoFlush? && s.sh.stopped && s.sh.batch == [] && !LastEntryDue(cfg, s)
    requires s.worker.Holding? || (s.worker.Waiting? && s.sh.queue != [])
    ensures Runs(cfg, s, steps) && NoEmit(steps)
    ensures var t := Exec(cfg, s, steps); AtRest(t) && t.sh.batch != []
  {
    hide Runs, Exec;
    var s1 := if s.worker.Waiting? then Next(cfg, s, Get) else s;
    var s2 := Next(cfg, s1, Append);
    var s3 := Next(cfg, s2, Decide);
    var s4 := Next(cfg, s3, Test);
    Nothing(cfg, s4);
    Prepend(cfg, s3, Test, []);
    Prepend(cfg, s2, Decide, [Test] + []);
    Prepend(cfg, s1, Append, [Decide] + ([Test] + []));
    steps := [Append] + ([Decide] + ([Test] + []));
    if s.worker.Waiting? {
      Prepend(cfg, s, Get, steps);
      steps := [Get] + steps;
    }
  }

  /** Where close may leave something behind, it does in some run. */
  lemma SomethingLeftBehind(cfg: Settings, s: State) returns (steps: seq<Step>)
    requires Valid(cfg, s) && !NothingLeftBehind(cfg, s)
    ensures CloseRun(cfg, s, steps) && !AllSettled(Exec(cfg, Next(cfg, s, Stop), steps))
  {
    hide Valid, Runs, Exec, LastEntryDue;
    var stopped := Next(cfg, s, Stop);
    StepKeepsValid(cfg, s, Stop);
    SameDue(cfg, s);
    var a := FlushRun(cfg, stopped);
    var t := Exec(cfg, stopped, a);
    RunKeepsValid(cfg, stopped, a);
    var b: seq<Step>;
    if (s.worker.Holding? || (s.worker.Waiting? && s.sh.queue != [])) && !LastEntryDue(cfg, s) {
      b := LastEntryStays(cfg, t);
    } else {
      b := WorkerEnds(cfg, t);
    }
    RunsOfConcat(cfg, stopped, a, b);
    steps := a + b;
    RunKeepsValid(cfg, stopped, steps);
    SettledWhenEmpty(cfg, Exec(cfg, stopped, steps));
  }

  lemma SameDue(cfg: Settings, s: State)
    ensures LastEntryDue(cfg, Next(cfg, s, Stop)) == LastEntryDue(cfg, s)
  {
  }

  /** Calling close settles every accepted entry, in every interleaving without further
      emits, exactly when nothing is left behind: the queue is empty, and if the worker
      still has an entry to append, so short a batch or interval that it is sent at once. */
  lemma CloseSettlesIff(cfg: Settings, s: State)
    requires Valid(cfg, s)
    ensures CloseSettles(cfg, s) <==> NothingLeftBehind(cfg, s)
  {
    hide Valid, Runs, Exec, AllSettled;
    if NothingLeftBehind(cfg, s) {
      var stopped := Next(cfg, s, Stop);
      StepKeepsValid(cfg, s, Stop);
      forall steps | CloseRun(cfg, s, steps)
        ensures AllSettled(Exec(cfg, stopped, steps))
      {
        RunKeepsValid(cfg, stopped, steps);
        RunLeavesNothing(cfg, stopped, steps);
        SettledWhenEmpty(cfg, Exec(cfg, stopped, steps));
      }
    } else {
      var steps := SomethingLeftBehind(cfg, s);
    }
  }
}
