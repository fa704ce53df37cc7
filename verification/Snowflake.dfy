/** The snowflake id generator: 41 bits of milliseconds since an epoch, 10 bits of node
    id and 12 bits of sequence, under a clock that may jump either way. */
module Snowflake {
  import opened Base

  const SEQUENCES := 0x1000
  const NODES := 0x400
  const TIMES := 0x200_0000_0000

  /** The module's two globals. */
  datatype Memory = Memory(lastTs: int, seqNo: nat)

  /** The timestamp the generator goes on with: never before the last one it used. */
  function Timestamp(m: Memory, reading: int): int {
    if reading < m.lastTs then m.lastTs else reading
  }

  /** Whether this call exhausts the sequence of its millisecond and has to spin. */
  predicate MustSpin(m: Memory, reading: int) {
    Timestamp(m, reading) == m.lastTs && (m.seqNo + 1) % SEQUENCES == 0
  }

  function Elapsed(ts: int, epoch: int): nat {
    if ts - epoch < 0 then 0 else ts - epoch
  }

  /** The id's fields, side by side. */
  function Compose(elapsed: nat, node: nat, seqNo: nat): nat {
    (elapsed % TIMES) * (NODES * SEQUENCES) + (node % NODES) * SEQUENCES + seqNo % SEQUENCES
  }

  // ---------------------------------------------------------------------------
  // The code masks, shifts and ors. Its integers are unbounded, so these are operations
  // on the binary digits of natural numbers.

  function And(a: nat, b: nat): nat {
    if a == 0 || b == 0 then 0 else 2 * And(a / 2, b / 2) + (if a % 2 == 1 && b % 2 == 1 then 1 else 0)
  }

  function Or(a: nat, b: nat): nat {
    if a == 0 then b
    else if b == 0 then a
    else 2 * Or(a / 2, b / 2) + (if a % 2 == 1 || b % 2 == 1 then 1 else 0)
  }

  /** The k-th binary digit is a one. */
  predicate Digit(a: nat, k: nat) {
    if k == 0 then a % 2 == 1 else Digit(a / 2, k - 1)
  }

  lemma {:induction false} ZeroHasNoDigit(k: nat)
    ensures !Digit(0, k)
  {
    if k > 0 {
      ZeroHasNoDigit(k - 1);
    }
  }

  lemma {:induction false} DigitByDigit(a: nat, b: nat, k: nat)
    ensures Digit(And(a, b), k) <==> Digit(a, k) && Digit(b, k)
    ensures Digit(Or(a, b), k) <==> Digit(a, k) || Digit(b, k)
  {
    ZeroHasNoDigit(k);
    if k > 0 {
      DigitByDigit(a / 2, b / 2, k - 1);
    }
  }

  function ShiftLeft(a: nat, k: nat): nat {
    a * Pow2(k)
  }

  lemma RemainderOfDouble(a: nat, p: nat)
    requires p > 0
    ensures a % (2 * p) == 2 * ((a / 2) % p) + a % 2
  {
    var q, r := (a / 2) / p, (a / 2) % p;
    assert a / 2 == q * p + r;
    assert a == q * (2 * p) + (2 * r + a % 2);
    RemainderIs(a, 2 * p, q, 2 * r + a % 2);
  }

  lemma RemainderIs(a: nat, m: nat, q: nat, r: nat)
    requires r < m && a == q * m + r
    ensures a % m == r
  {
    var d := a / m - q;
    assert d * m == r - a % m;
    MultipleIsLarge(d, m);
  }

  lemma MultipleIsLarge(d: int, m: int)
    requires m >= 0
    ensures d >= 1 ==> d * m >= m
    ensures d <= -1 ==> d * m <= -m
  {
    if d >= 1 {
      assert (d - 1) * m >= 0;
    } else if d <= -1 {
      assert (d + 1) * m <= 0;
    }
  }

  lemma {:induction false} AndOdd(a: nat, half: nat)
    ensures And(a, 2 * half + 1) == 2 * And(a / 2, half) + a % 2
  {
    assert (2 * half + 1) / 2 == half && (2 * half + 1) % 2 == 1;
  }

  /** A mask with one digit more. */
  lemma {:induction false} MaskOneMore(a: nat, p: nat)
    requires p > 0 && And(a / 2, p - 1) == (a / 2) % p
    ensures And(a, 2 * p - 1) == a % (2 * p)
  {
    hide And;
    AndOdd(a, p - 1);
    RemainderOfDouble(a, p);
    assert 2 * (p - 1) + 1 == 2 * p - 1;
  }

  /** Masking with k ones keeps the last k digits. */
  lemma {:induction false} AndMask(a: nat, k: nat)
    ensures And(a, Pow2(k) - 1) == a % Pow2(k)
  {
    if k > 0 {
      hide And;
      var p := Pow2(k - 1);
      assert Pow2(k) == 2 * p;
      AndMask(a / 2, k - 1);
      MaskOneMore(a, p);
      hide *;
    }
  }

  lemma {:induction false} OrOfDouble(half: nat, b: nat)
    ensures Or(2 * half, b) == 2 * Or(half, b / 2) + b % 2
  {
    assert (2 * half) / 2 == half && (2 * half) % 2 == 0;
  }

  /** Where no digits overlap, or is addition. */
  lemma {:induction false} OrAdds(a: nat, k: nat, b: nat)
    requires b < Pow2(k)
    ensures Or(a * Pow2(k), b) == a * Pow2(k) + b
  {
    if k > 0 {
      hide Or;
      var p := Pow2(k - 1);
      assert Pow2(k) == 2 * p && a * (2 * p) == 2 * (a * p);
      OrAdds(a, k - 1, b / 2);
      OrOfDouble(a * p, b);
    }
  }

  lemma Powers()
    ensures Pow2(10) == NODES && Pow2(12) == SEQUENCES && Pow2(22) == NODES * SEQUENCES && Pow2(41) == TIMES
  {
    assert Pow2(5) == 32 && Pow2(10) == 1024 && Pow2(12) == 4096;
    assert Pow2(17) == 131072 && Pow2(22) == 4194304 && Pow2(27) == 134217728;
    assert Pow2(32) == 4294967296 && Pow2(37) == 137438953472 && Pow2(41) == 2199023255552;
  }

  /** The code's expression for an id. */
  function Packed(elapsed: nat, node: nat, seqNo: nat): nat {
    Or(Or(ShiftLeft(And(elapsed, ShiftLeft(1, 41) - 1), 10 + 12), ShiftLeft(And(node, 0x3FF), 12)), And(seqNo, 0xFFF))
  }

  /** Masking, shifting and or-ing sets the fields side by side, whatever the node id. */
  lemma BitsCompose(elapsed: nat, node: nat, seqNo: nat)
    ensures Packed(elapsed, node, seqNo) == Compose(elapsed, node, seqNo)
  {
    hide And, Or, Pow2;
    Powers();
    AndMask(elapsed, 41);
    AndMask(node, 10);
    AndMask(seqNo, 12);
    var e, n, q := elapsed % TIMES, node % NODES, seqNo % SEQUENCES;
    OrAdds(e, 22, n * SEQUENCES);
    OrAdds(e * NODES + n, 12, q);
  }

  /** The sequence number wraps after its 12 bits. */
  lemma NextSequence(seqNo: nat)
    ensures And(seqNo + 1, 0xFFF) == (seqNo + 1) % SEQUENCES
  {
    hide And, Pow2;
    Powers();
    AndMask(seqNo + 1, 12);
  }

  function TimeOf(id: nat): nat { id / (NODES * SEQUENCES) }

  function NodeOf(id: nat): nat { id / SEQUENCES % NODES }

  function SequenceOf(id: nat): nat { id % SEQUENCES }

  /** The fields of an id decode back. */
  lemma FieldsDecode(elapsed: nat, node: nat, seqNo: nat)
    requires elapsed < TIMES && node < NODES && seqNo < SEQUENCES
    ensures var id := Compose(elapsed, node, seqNo);
            TimeOf(id) == elapsed && NodeOf(id) == node && SequenceOf(id) == seqNo
  {
    var low := node * SEQUENCES + seqNo;
    var id := Compose(elapsed, node, seqNo);
    assert id == elapsed * 0x40_0000 + low && low < 0x40_0000;
    assert id / SEQUENCES == elapsed * NODES + node;
  }

  /** What one call makes of the clock: `reading` first, and `spun`, a reading later than
      the last timestamp, when the sequence ran out. */
  function After(m: Memory, reading: int, spun: int): Memory {
    var ts := Timestamp(m, reading);
    if MustSpin(m, reading) then Memory(spun, 0)
    else if ts == m.lastTs then Memory(ts, (m.seqNo + 1) % SEQUENCES)
    else Memory(ts, 0)
  }

  function IdOf(m: Memory, epoch: int, node: nat): nat {
    Compose(Elapsed(m.lastTs, epoch), node, m.seqNo)
  }

  class Generator {
    const epoch: int
    const node: nat
    var lastTs: int
    var seqNo: nat

    constructor (epochMs: int, nodeId: nat)
      ensures epoch == epochMs && node == nodeId && Current() == Memory(0, 0)
    {
      epoch, node, lastTs, seqNo := epochMs, nodeId, 0, 0;
    }

    function Current(): Memory
      reads this
    {
      Memory(lastTs, seqNo)
    }

    /** One call. `clock` gives the successive readings; a call that has to spin
        returns because the clock at some point passes the last timestamp. */
    method GetId(clock: nat -> int) returns (id: nat, ghost k: nat)
      requires MustSpin(Current(), clock(0)) ==> exists n: nat :: n > 0 && clock(n) > lastTs
      modifies this
      ensures MustSpin(old(Current()), clock(0)) ==>
                k > 0 && clock(k) > old(lastTs) && forall j: nat | 0 < j < k :: clock(j) <= old(lastTs)
      ensures Current() == After(old(Current()), clock(0), clock(k))
      ensures id == IdOf(Current(), epoch, node)
    {
      hide And, Packed, Compose;
      var ts := clock(0);
      k := 0;
      if ts < lastTs {
        ts := lastTs;
      }
      if ts == lastTs {
        NextSequence(seqNo);
        seqNo := And(seqNo + 1, 0xFFF);
        if seqNo == 0 {
          ghost var enough: nat :| enough > 0 && clock(enough) > lastTs;
          var n: nat := 1;
          while clock(n) <= lastTs
            invariant 1 <= n <= enough
            invariant forall j: nat | 0 < j < n :: clock(j) <= lastTs
            decreases enough - n
          {
            n := n + 1;
          }
          ts := clock(n);
          k := n;
        }
      } else {
        seqNo := 0;
      }
      lastTs := ts;
      var elapsed := if ts - epoch < 0 then 0 else ts - epoch;
      BitsCompose(elapsed, node, seqNo);
      id := Packed(elapsed, node, seqNo);
    }
  }

  // ---------------------------------------------------------------------------
  // Runs of calls

  /** The clock as one call saw it. */
  datatype Reading = Reading(first: int, spun: int)

  predicate Usable(m: Memory, r: Reading) {
    m.seqNo < SEQUENCES && (MustSpin(m, r.first) ==> r.spun > m.lastTs)
  }

  /** Two ids in a row are increasing exactly when they share their timestamp, or the
      later timestamp's field is larger. */
  lemma NextIdLargerIff(m: Memory, r: Reading, epoch: int, node: nat)
    requires Usable(m, r)
    ensures var m' := After(m, r.first, r.spun);
            IdOf(m, epoch, node) < IdOf(m', epoch, node) <==>
            m'.lastTs == m.lastTs || Elapsed(m.lastTs, epoch) % TIMES < Elapsed(m'.lastTs, epoch) % TIMES
  {
    var m' := After(m, r.first, r.spun);
    ComposeOrder(Elapsed(m.lastTs, epoch), m.seqNo, Elapsed(m'.lastTs, epoch), m'.seqNo, node);
  }

  lemma ComposeOrder(e: nat, s: nat, e': nat, s': nat, node: nat)
    requires s < SEQUENCES && s' < SEQUENCES
    ensures Compose(e, node, s) < Compose(e', node, s') <==>
            e % TIMES < e' % TIMES || (e % TIMES == e' % TIMES && s < s')
  {
    var n := node % NODES;
    assert n < NODES;
    assert n * SEQUENCES + s < NODES * SEQUENCES && n * SEQUENCES + s' < NODES * SEQUENCES;
  }

  /** The generator's memory after the first `k` calls. */
  function MemoryAfter(m: Memory, readings: seq<Reading>, k: nat): Memory
    requires k <= |readings|
  {
    if k == 0 then m
    else
      var before := MemoryAfter(m, readings, k - 1);
      After(before, readings[k - 1].first, readings[k - 1].spun)
  }

  /** A later reading is taken as it is, with the sequence number 0. Otherwise the call counts
      one more in the last timestamp; after its last number it spins to a later reading. */
  lemma CallIs(m: Memory, r: Reading)
    requires m.seqNo < SEQUENCES
    ensures Usable(m, r) <==> (r.first <= m.lastTs && m.seqNo == 4095 ==> r.spun > m.lastTs)
    ensures After(m, r.first, r.spun) ==
            if r.first > m.lastTs then Memory(r.first, 0)
            else if m.seqNo < 4095 then Memory(m.lastTs, m.seqNo + 1)
            else Memory(r.spun, 0)
  {
  }

  /** So each timestamp holds 4096 ids: as long as the clock does not pass it, calls count
      through its sequence numbers, and the 4097th goes on with a later reading. */
  lemma {:induction false} MillisecondHoldsSequence(m: Memory, readings: seq<Reading>, n: nat)
    requires 1 <= n <= |readings| && readings[0].first > m.lastTs && m.seqNo < SEQUENCES
    requires forall k | 1 <= k < n :: readings[k].first <= readings[0].first
    ensures n <= 4096 ==> MemoryAfter(m, readings, n) == Memory(readings[0].first, n - 1)
    ensures n == 4097 ==> MemoryAfter(m, readings, n) == Memory(readings[4096].spun, 0)
  {
    hide After;
    if n > 1 {
      MillisecondHoldsSequence(m, readings, n - 1);
    }
    if n <= 4097 {
      CallIs(MemoryAfter(m, readings, n - 1), readings[n - 1]);
    }
  }

  ghost predicate AllUsable(m: Memory, readings: seq<Reading>) {
    forall k | 0 <= k < |readings| :: Usable(MemoryAfter(m, readings, k), readings[k])
  }

  /** The timestamps used are the clock's from the first call on: at or after the epoch
      and within 41 bits of it. */
  predicate InRange(ts: int, epoch: int) {
    epoch <= ts < epoch + TIMES
  }

  /** A later timestamp, or the same one with a larger sequence number. */
  predicate Later(a: Memory, b: Memory) {
    a.lastTs < b.lastTs || (a.lastTs == b.lastTs && a.seqNo < b.seqNo)
  }

  lemma CallGoesLater(m: Memory, r: Reading)
    requires Usable(m, r)
    ensures var m' := After(m, r.first, r.spun); Later(m, m') && m'.seqNo < SEQUENCES
  {
  }

  lemma {:induction false} CallsGoLater(m: Memory, readings: seq<Reading>, i: nat, j: nat)
    requires i < j <= |readings| && AllUsable(m, readings)
    ensures Later(MemoryAfter(m, readings, i), MemoryAfter(m, readings, j))
    ensures MemoryAfter(m, readings, j).seqNo < SEQUENCES
  {
    hide After, Usable;
    CallGoesLater(MemoryAfter(m, readings, j - 1), readings[j - 1]);
    if i < j - 1 {
      CallsGoLater(m, readings, i, j - 1);
    }
  }

  /** For any sequence of clock readings, backward jumps included, whose timestamps are
      in range: the ids are strictly increasing. */
  lemma {:induction false} IdsIncrease(m: Memory, readings: seq<Reading>, epoch: int, node: nat, i: nat, j: nat)
    requires AllUsable(m, readings) && 1 <= i < j <= |readings|
    requires InRange(MemoryAfter(m, readings, i).lastTs, epoch) && InRange(MemoryAfter(m, readings, j).lastTs, epoch)
    ensures IdOf(MemoryAfter(m, readings, i), epoch, node) < IdOf(MemoryAfter(m, readings, j), epoch, node)
  {
    hide MemoryAfter, Compose, AllUsable;
    CallsGoLater(m, readings, 0, i);
    CallsGoLater(m, readings, i, j);
    var a, b := MemoryAfter(m, readings, i), MemoryAfter(m, readings, j);
    ComposeOrder(a.lastTs - epoch, a.seqNo, b.lastTs - epoch, b.seqNo, node);
  }

  /** The id of the k-th call. */
  function IdAt(m: Memory, readings: seq<Reading>, epoch: int, node: nat, k: nat): nat
    requires k <= |readings|
  {
    IdOf(MemoryAfter(m, readings, k), epoch, node)
  }

  /** The call after the k-th stays in its millisecond, or its timestamp's field is larger. */
  predicate FieldGrows(m: Memory, readings: seq<Reading>, epoch: int, k: nat)
    requires k < |readings|
  {
    var a, b := MemoryAfter(m, readings, k), MemoryAfter(m, readings, k + 1);
    b.lastTs == a.lastTs || Elapsed(a.lastTs, epoch) % TIMES < Elapsed(b.lastTs, epoch) % TIMES
  }

  lemma {:induction false} IdsIncreaseUpTo(m: Memory, readings: seq<Reading>, epoch: int, node: nat, i: nat, j: nat)
    requires AllUsable(m, readings) && i < j <= |readings|
    requires forall k | i <= k < j :: FieldGrows(m, readings, epoch, k)
    ensures IdAt(m, readings, epoch, node, i) < IdAt(m, readings, epoch, node, j)
  {
    hide After, Usable, IdOf, Elapsed;
    NextIdLargerIff(MemoryAfter(m, readings, j - 1), readings[j - 1], epoch, node);
    assert FieldGrows(m, readings, epoch, j - 1);
    if i < j - 1 {
      IdsIncreaseUpTo(m, readings, epoch, node, i, j - 1);
    }
  }

  /** Exactly when all ids of a run increase, wherever its timestamps lie: whenever two
      calls in a row differ in their timestamp, the later one's 41-bit field is larger. */
  lemma RunIncreasesIff(m: Memory, readings: seq<Reading>, epoch: int, node: nat)
    requires AllUsable(m, readings)
    ensures (forall i: nat, j: nat | 1 <= i < j <= |readings| ::
               IdAt(m, readings, epoch, node, i) < IdAt(m, readings, epoch, node, j))
       <==> (forall k: nat | 1 <= k < |readings| :: FieldGrows(m, readings, epoch, k))
  {
    hide After, Usable, IdOf, Elapsed;
    if forall k: nat | 1 <= k < |readings| :: FieldGrows(m, readings, epoch, k) {
      forall i: nat, j: nat | 1 <= i < j <= |readings|
        ensures IdAt(m, readings, epoch, node, i) < IdAt(m, readings, epoch, node, j)
      {
        IdsIncreaseUpTo(m, readings, epoch, node, i, j);
      }
    } else {
      var k: nat :| 1 <= k < |readings| && !FieldGrows(m, readings, epoch, k);
      NextIdLargerIff(MemoryAfter(m, readings, k), readings[k], epoch, node);
      assert !(IdAt(m, readings, epoch, node, k) < IdAt(m, readings, epoch, node, k + 1));
    }
  }

  /** Two calls of a run give the same id exactly when their time fields and their
      sequence numbers agree; in one millisecond they never do. */
  lemma {:induction false} IdsRepeatIff(m: Memory, readings: seq<Reading>, epoch: int, node: nat, i: nat, j: nat)
    requires AllUsable(m, readings) && 1 <= i < j <= |readings|
    ensures var a, b := MemoryAfter(m, readings, i), MemoryAfter(m, readings, j);
            (IdAt(m, readings, epoch, node, i) == IdAt(m, readings, epoch, node, j) <==>
               a.seqNo == b.seqNo && a.lastTs != b.lastTs
               && Elapsed(a.lastTs, epoch) % TIMES == Elapsed(b.lastTs, epoch) % TIMES)
  {
    hide MemoryAfter, Compose, AllUsable;
    CallsGoLater(m, readings, 0, i);
    CallsGoLater(m, readings, i, j);
    var a, b := MemoryAfter(m, readings, i), MemoryAfter(m, readings, j);
    ComposeOrder(Elapsed(a.lastTs, epoch), a.seqNo, Elapsed(b.lastTs, epoch), b.seqNo, node);
    ComposeOrder(Elapsed(b.lastTs, epoch), b.seqNo, Elapsed(a.lastTs, epoch), a.seqNo, node);
    SameFieldsSameId(Elapsed(a.lastTs, epoch), Elapsed(b.lastTs, epoch), a.seqNo, node);
  }

  lemma SameFieldsSameId(e: nat, e': nat, seqNo: nat, node: nat)
    ensures e % TIMES == e' % TIMES ==> Compose(e, node, seqNo) == Compose(e', node, seqNo)
  {
  }

  /** Generators with different node ids never produce the same id, whatever their clocks
      and histories. */
  lemma NodesNeverClash(a: Memory, epochA: int, nodeA: nat, b: Memory, epochB: int, nodeB: nat)
    requires nodeA < NODES && nodeB < NODES && nodeA != nodeB
    ensures IdOf(a, epochA, nodeA) != IdOf(b, epochB, nodeB)
  {
    hide Compose, NodeOf, Elapsed;
    NodeOfCompose(Elapsed(a.lastTs, epochA), nodeA, a.seqNo);
    NodeOfCompose(Elapsed(b.lastTs, epochB), nodeB, b.seqNo);
  }

  lemma NodeOfCompose(elapsed: nat, node: nat, seqNo: nat)
    requires node < NODES
    ensures NodeOf(Compose(elapsed, node, seqNo)) == node
  {
    var e, s := elapsed % TIMES, seqNo % SEQUENCES;
    FieldsDecode(e, node, s);
    assert Compose(e, node, s) == Compose(elapsed, node, seqNo);
  }

  /** Before the epoch the ids of a node repeat: any two new milliseconds there give the
      same id. */
  lemma IdsRepeatBeforeEpoch(m: Memory, first: int, second: int, epoch: int, node: nat)
    requires m.lastTs < first < second <= epoch
    ensures var a := After(m, first, first);
            var b := After(a, second, second);
            a.lastTs == first && b.lastTs == second && IdOf(a, epoch, node) == IdOf(b, epoch, node)
  {
  }
}
