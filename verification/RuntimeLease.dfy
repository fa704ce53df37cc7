/** The lease by which server instances elect the one that runs a control loop: one
    row of the runtime table, taken over by a single conditional upsert. */
module RuntimeLease {
  import opened Base

  type Instance = string

  /** The row under the lease's (kind, name) key. A row of another type is never the
      lease's to take. */
  datatype Row = Foreign | Control(owner: Instance, heartbeat: real, ready: bool)

  datatype LeaseState = LeaseState(acquired: bool, owner: Option<Instance>)

  /** The upsert's WHERE clause: no row yet, or a lease row that is the caller's own or
      whose heartbeat is older than the caller's lease. */
  predicate MayTake(row: Option<Row>, who: Instance, lease: real, now: real) {
    row.None? || (row.value.Control? && (row.value.heartbeat < now - lease || row.value.owner == who))
  }

  function Taken(row: Option<Row>, who: Instance, lease: real, now: real): Option<Row> {
    if MayTake(row, who, lease, now) then Some(Control(who, now, true)) else row
  }

  function Released(row: Option<Row>, who: Instance): Option<Row> {
    if row.Some? && row.value.Control? && row.value.owner == who then Some(row.value.(ready := false)) else row
  }

  function OwnerOf(row: Option<Row>): Option<Instance> {
    if row.Some? && row.value.Control? then Some(row.value.owner) else None
  }

  /** The shared row, and the database clock. */
  class RuntimeTable {
    var now: real
    var row: Option<Row>
  }

  class Lease {
    const table: RuntimeTable
    const instance: Instance
    const leaseSeconds: real

    constructor (t: RuntimeTable, name: Instance, requestedSeconds: real)
      ensures table == t && instance == name
      ensures leaseSeconds == MaxReal(5.0, requestedSeconds)
    {
      table, instance, leaseSeconds := t, name, MaxReal(5.0, requestedSeconds);
    }

    method TryAcquireOrRenew() returns (r: LeaseState)
      modifies table`row
      ensures table.row == Taken(old(table.row), instance, leaseSeconds, table.now)
      ensures r == if MayTake(old(table.row), instance, leaseSeconds, table.now)
                   then LeaseState(true, Some(instance))
                   else LeaseState(false, OwnerOf(old(table.row)))
    {
      if MayTake(table.row, instance, leaseSeconds, table.now) {
        table.row := Some(Control(instance, table.now, true));
        return LeaseState(true, Some(instance));
      }
      var owner := GetOwnerInstance();
      r := LeaseState(false, owner);
    }

    method GetOwnerInstance() returns (owner: Option<Instance>)
      ensures owner == OwnerOf(table.row)
    {
      owner := None;
      if table.row.Some? && table.row.value.Control? {
        owner := Some(table.row.value.owner);
      }
    }

    /** A statement that raises is logged and leaves the row as it was. */
    method Release(raises: bool)
      modifies table`row
      ensures table.row == if raises then old(table.row) else Released(old(table.row), instance)
    {
      if !raises && table.row.Some? && table.row.value.Control? && table.row.value.owner == instance {
        table.row := Some(table.row.value.(ready := false));
      }
    }
  }

  // ---------------------------------------------------------------------------
  // Runs: any interleaving of the instances' statements and the passing of time

  datatype Step = Acquire(who: Instance) | Release(who: Instance) | Pass(dt: real)

  /** A successful acquisition or renewal. */
  datatype Win = Win(who: Instance, at: real)

  datatype State = State(now: real, row: Option<Row>, wins: seq<Win>)

  type Leases = Instance -> real

  function Next(leases: Leases, s: State, step: Step): State {
    match step
    case Acquire(who) =>
      State(s.now, Taken(s.row, who, leases(who), s.now),
            if MayTake(s.row, who, leases(who), s.now) then s.wins + [Win(who, s.now)] else s.wins)
    case Release(who) => s.(row := Released(s.row, who))
    case Pass(dt) => s.(now := s.now + MaxReal(dt, 0.0))
  }

  function Exec(leases: Leases, s: State, steps: seq<Step>): State
    decreases |steps|
  {
    if steps == [] then s else Exec(leases, Next(leases, s, steps[0]), steps[1..])
  }

  /** A run may start on any row; a lease row found there stands for the acquisition
      that wrote it. */
  predicate Initial(s: State) {
    match s.row
    case Some(Control(owner, heartbeat, _)) => heartbeat <= s.now && s.wins == [Win(owner, heartbeat)]
    case _ => s.wins == []
  }

  /** Acquisitions by different instances are further apart than the later one's lease. */
  ghost predicate Excluded(leases: Leases, wins: seq<Win>) {
    forall i, j | 0 <= i < j < |wins| && wins[i].who != wins[j].who ::
      wins[j].at - wins[i].at > leases(wins[j].who)
  }

  /** The row is the last acquisition, and acquisitions exclude each other. */
  ghost predicate Valid(leases: Leases, s: State) {
    && Excluded(leases, s.wins)
    && (forall i, j | 0 <= i < j < |s.wins| :: s.wins[i].at <= s.wins[j].at)
    && (forall i | 0 <= i < |s.wins| :: s.wins[i].at <= s.now)
    && match s.row
       case Some(Control(owner, heartbeat, _)) => |s.wins| > 0 && s.wins[|s.wins| - 1] == Win(owner, heartbeat)
       case _ => s.wins == []
  }

  /** In a valid state an acquisition succeeds exactly when there is no row, or it is a
      lease row and the caller won last or the last win is older than the caller's lease.
      A release, the owner's included, plays no part. */
  lemma AcquireSucceedsIff(leases: Leases, s: State, who: Instance)
    requires Valid(leases, s)
    ensures (Next(leases, s, Acquire(who)).wins == s.wins + [Win(who, s.now)]) <==>
            (s.row.None? || (|s.wins| > 0 &&
                             var last := s.wins[|s.wins| - 1];
                             last.who == who || s.now - last.at > leases(who)))
    ensures Next(leases, s, Acquire(who)).wins != s.wins + [Win(who, s.now)] ==> Next(leases, s, Acquire(who)) == s
  {
    assert |s.wins + [Win(who, s.now)]| == |s.wins| + 1;
  }

  lemma StepKeepsValid(leases: Leases, s: State, step: Step)
    requires Valid(leases, s)
    ensures Valid(leases, Next(leases, s, step))
  {
    if step.Acquire? && MayTake(s.row, step.who, leases(step.who), s.now) && |s.wins| > 0 {
      var wins := Next(leases, s, step).wins;
      var j := |s.wins|;
      forall i | 0 <= i < j && wins[i].who != wins[j].who
        ensures wins[j].at - wins[i].at > leases(wins[j].who)
      {
        if s.wins[j - 1].who == step.who {
          // The owner renews: it had already waited out its lease against win i.
          assert s.wins[j - 1].at - s.wins[i].at > leases(step.who);
        }
      }
    }
  }

  lemma {:induction false} RunKeepsValid(leases: Leases, s: State, steps: seq<Step>)
    requires Valid(leases, s)
    ensures Valid(leases, Exec(leases, s, steps))
    decreases |steps|
  {
    if steps != [] {
      StepKeepsValid(leases, s, steps[0]);
      RunKeepsValid(leases, Next(leases, s, steps[0]), steps[1..]);
    }
  }

  /** Exclusion over whole runs, for any leases: two acquisitions by different
      instances, however far apart in the run, are more than the later one's lease
      apart. */
  lemma {:induction false} LeaseExclusion(leases: Leases, s: State, steps: seq<Step>)
    requires Initial(s)
    ensures Excluded(leases, Exec(leases, s, steps).wins)
  {
    assert Valid(leases, s);
    RunKeepsValid(leases, s, steps);
  }

  /** The instance acquired within its own lease, so it believes it is the leader. */
  ghost predicate Leads(leases: Leases, s: State, who: Instance) {
    exists i :: 0 <= i < |s.wins| && s.wins[i].who == who && s.now - s.wins[i].at <= leases(who)
  }

  ghost predicate CanBothLead(leases: Leases, x: Instance, y: Instance) {
    exists s, steps ::
      Initial(s) && Leads(leases, Exec(leases, s, steps), x) && Leads(leases, Exec(leases, s, steps), y)
  }

  /** Two instances can believe they lead at once exactly when their leases differ: the
      upsert writes the owner's lease length into the row but does not compare against it,
      so a contender judges the owner by its own lease. */
  lemma LeadersClashIff(leases: Leases, x: Instance, y: Instance)
    requires x != y && leases(x) >= 5.0 && leases(y) >= 5.0
    ensures CanBothLead(leases, x, y) <==> leases(x) != leases(y)
  {
    if leases(x) > leases(y) {
      ShortLeaseTakesOver(leases, x, y);
    } else if leases(y) > leases(x) {
      ShortLeaseTakesOver(leases, y, x);
    } else if CanBothLead(leases, x, y) {
      var s, steps :|
        Initial(s) && Leads(leases, Exec(leases, s, steps), x) && Leads(leases, Exec(leases, s, steps), y);
      OneLeader(leases, s, steps, x, y);
    }
  }

  lemma {:induction false} OneLeader(leases: Leases, s: State, steps: seq<Step>, x: Instance, y: Instance)
    requires Initial(s) && x != y && leases(x) == leases(y)
    ensures var t := Exec(leases, s, steps); !(Leads(leases, t, x) && Leads(leases, t, y))
  {
    assert Valid(leases, s);
    RunKeepsValid(leases, s, steps);
  }

  lemma ShortLeaseTakesOver(leases: Leases, x: Instance, y: Instance)
    requires x != y && leases(x) > leases(y) >= 5.0
    ensures CanBothLead(leases, x, y) && CanBothLead(leases, y, x)
  {
    var s := State(0.0, None, []);
    var steps := [Acquire(x), Pass(leases(x)), Acquire(y)];
    var s1 := Next(leases, s, steps[0]);
    var s2 := Next(leases, s1, steps[1]);
    var s3 := Next(leases, s2, steps[2]);
    assert steps[1..] == [steps[1], steps[2]] && steps[1..][1..] == [steps[2]];
    assert Exec(leases, s2, [steps[2]]) == s3;
    assert Exec(leases, s1, [steps[1], steps[2]]) == s3;
    assert Exec(leases, s, steps) == s3;
    assert s3.wins[0] == Win(x, 0.0) && s3.wins[1] == Win(y, leases(x));
    assert Leads(leases, s3, x) && Leads(leases, s3, y);
  }

  // ---------------------------------------------------------------------------
  // Releasing

  function WithoutReleases(steps: seq<Step>): seq<Step> {
    if steps == [] then []
    else if steps[0].Release? then WithoutReleases(steps[1..])
    else [steps[0]] + WithoutReleases(steps[1..])
  }

  /** Equal but for the ready flag. */
  predicate SameLease(s: State, t: State) {
    && s.now == t.now && s.wins == t.wins
    && match (s.row, t.row)
       case (Some(Control(o, h, _)), Some(Control(o', h', _))) => o == o' && h == h'
       case _ => s.row == t.row
  }

  /** A release marks the row offline and nothing else: erasing every release from a run
      changes no acquisition, no owner and no heartbeat. Releasing therefore never lets a
      successor in earlier. */
  lemma {:induction false} ReleaseIsInert(leases: Leases, s: State, t: State, steps: seq<Step>)
    requires SameLease(s, t)
    ensures SameLease(Exec(leases, s, steps), Exec(leases, t, WithoutReleases(steps)))
    decreases |steps|
  {
    if steps != [] {
      var rest := WithoutReleases(steps[1..]);
      if steps[0].Release? {
        ReleaseIsInert(leases, Next(leases, s, steps[0]), t, steps[1..]);
      } else {
        assert ([steps[0]] + rest)[1..] == rest;
        ReleaseIsInert(leases, Next(leases, s, steps[0]), Next(leases, t, steps[0]), steps[1..]);
      }
    }
  }

  // ---------------------------------------------------------------------------
  // What the row shows

  /** A caller that is refused is told who acquired last; nobody, if the row is not a lease. */
  lemma RefusedIsToldOwner(leases: Leases, s: State, who: Instance)
    requires Valid(leases, s) && Next(leases, s, Acquire(who)) == s
    ensures OwnerOf(s.row) == if s.wins == [] then None else Some(s.wins[|s.wins| - 1].who)
  {
  }

  lemma {:induction false} ExecOneMore(leases: Leases, s: State, steps: seq<Step>)
    requires steps != []
    ensures Exec(leases, s, steps) == Next(leases, Exec(leases, s, steps[..|steps| - 1]), steps[|steps| - 1])
    decreases |steps|
  {
    hide Next;
    if |steps| == 1 {
      assert steps[1..] == [] && steps[..0] == [];
    } else {
      assert steps[1..][..|steps| - 2] == steps[..|steps| - 1][1..];
      ExecOneMore(leases, Next(leases, s, steps[0]), steps[1..]);
    }
  }

  /** The last acquirer has released the lease since it last acquired it. A row found at the
      start may have been released before. */
  predicate LastWinnerReleased(leases: Leases, s: State, steps: seq<Step>)
    decreases |steps|
  {
    if steps == [] then s.row.Some? && s.row.value.Control? && !s.row.value.ready
    else
      var front := steps[..|steps| - 1];
      var before := Exec(leases, s, front);
      match steps[|steps| - 1]
      case Acquire(_) => Exec(leases, s, steps).wins == before.wins && LastWinnerReleased(leases, s, front)
      case Release(who) =>
        LastWinnerReleased(leases, s, front) || (before.wins != [] && before.wins[|before.wins| - 1].who == who)
      case Pass(_) => LastWinnerReleased(leases, s, front)
  }

  /** After any run the row is ready unless the last acquirer has released since: nobody
      else's release clears the flag, and every acquisition sets it. */
  lemma {:induction false} ReadyIff(leases: Leases, s: State, steps: seq<Step>)
    requires Initial(s)
    ensures var row := Exec(leases, s, steps).row;
            row.Some? && row.value.Control? ==> (row.value.ready <==> !LastWinnerReleased(leases, s, steps))
    decreases |steps|
  {
    if steps != [] {
      hide Valid, Initial;
      var front := steps[..|steps| - 1];
      var before := Exec(leases, s, front);
      ReadyIff(leases, s, front);
      ExecOneMore(leases, s, steps);
      InitialIsValid(leases, s);
      RunKeepsValid(leases, s, front);
      RowIsLastWin(leases, before);
      assert forall who :: before.wins + [Win(who, before.now)] != before.wins;
    }
  }

  lemma InitialIsValid(leases: Leases, s: State)
    requires Initial(s)
    ensures Valid(leases, s)
  {
  }

  lemma RowIsLastWin(leases: Leases, s: State)
    requires Valid(leases, s)
    ensures s.row.Some? && s.row.value.Control? ==>
              s.wins != [] && s.wins[|s.wins| - 1] == Win(s.row.value.owner, s.row.value.heartbeat)
    ensures s.row.None? || s.row.value.Foreign? ==> s.wins == []
  {
  }
}
