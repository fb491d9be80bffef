/** The circular buffer of in-flight transactions that the Kafka producer keeps
    between Postgres and Kafka, as a value, and the checkpoint loop that drains
    it (kafka/bottledwater.c).

    `Ctx` holds the part of `producer_context` and of its replication stream
    that the loop reads and writes. Every operation is total on well-shaped
    contexts: nothing here assumes that the buffer is used sensibly. */
module Ring {

  const MAX_IN_FLIGHT_TRANSACTIONS: int := 1000
  // One extra element, so that an empty buffer and a full one differ.
  const XACT_LIST_LEN: int := MAX_IN_FLIGHT_TRANSACTIONS + 1

  // An index or a length reduced modulo the buffer length. Every sum formed by
  // the code lies in this range; `WrapIsModulo` ties it to the `%` used there.
  function Wrap(x: int): (w: int)
    requires 0 <= x <= 2 * XACT_LIST_LEN
    ensures 0 <= w < XACT_LIST_LEN
  {
    if x < XACT_LIST_LEN then x
    else if x < 2 * XACT_LIST_LEN then x - XACT_LIST_LEN
    else 0
  }

  lemma WrapIsModulo(x: int)
    requires 0 <= x <= 2 * XACT_LIST_LEN
    ensures Wrap(x) == x % XACT_LIST_LEN
  {
  }

  type Lsn = nat

  datatype Slot = Slot(xid: nat, recvdEvents: nat, pendingEvents: int, commitLsn: Lsn) {

    // The guard of the checkpoint loop.
    predicate Ready() {
      pendingEvents == 0 && (commitLsn > 0 || xid == 0)
    }

    // A committed initial snapshot.
    predicate SnapshotDone() {
      xid == 0 && commitLsn > 0
    }
  }

  const ZERO_SLOT: Slot := Slot(0, 0, 0, 0)

  datatype Ctx = Ctx(slots: seq<Slot>, head: int, tail: int,
                     fsync: Lsn, recvd: Lsn, takingSnapshot: bool) {

    predicate Shape() {
      && |slots| == XACT_LIST_LEN
      && 0 <= head < XACT_LIST_LEN
      && 0 <= tail < XACT_LIST_LEN
    }

    function Length(): nat
      requires Shape()
    {
      Wrap(XACT_LIST_LEN + head + 1 - tail)
    }

    predicate Full()
      requires Shape()
    {
      Length() == XACT_LIST_LEN - 1
    }

    predicate Empty()
      requires Shape()
    {
      Length() == 0
    }

    // The k-th slot counting from the tail.
    function At(k: nat): Slot
      requires Shape() && k <= XACT_LIST_LEN
    {
      slots[Wrap(tail + k)]
    }

    function Begin(newXid: nat): Ctx
      requires Shape()
    {
      var h := Wrap(head + 1);
      this.(head := h, slots := slots[h := Slot(newXid, 0, 0, 0)])
    }

    // A row event is charged to the transaction being received, before it is
    // handed to Kafka.
    function Charge(): Ctx
      requires Shape()
    {
      var s := slots[head];
      this.(slots := slots[head := s.(recvdEvents := s.recvdEvents + 1,
                                      pendingEvents := s.pendingEvents + 1)])
    }

    function Committed(lsn: Lsn): Ctx
      requires Shape()
    {
      this.(slots := slots[head := slots[head].(commitLsn := lsn)])
    }

    function Discharged(at: int): Ctx
      requires Shape() && 0 <= at < XACT_LIST_LEN
    {
      var s := slots[at];
      this.(slots := slots[at := s.(pendingEvents := s.pendingEvents - 1)])
    }

    // One turn of the checkpoint loop.
    function Pop(): Ctx
      requires Shape()
    {
      var s := slots[tail];
      this.(fsync := s.commitLsn,
            takingSnapshot := takingSnapshot && !s.SnapshotDone(),
            tail := Wrap(tail + 1))
    }

    // An upper bound on the number of turns left: an empty buffer is not
    // tested for on entry, so it counts as a whole lap.
    function Turns(): nat
      requires Shape()
    {
      if Empty() then XACT_LIST_LEN else Length()
    }

    function Checkpoint(): (c: Ctx)
      requires Shape()
      ensures c.Shape() && c.slots == slots && c.head == head && c.recvd == recvd
      decreases Turns()
    {
      if !slots[tail].Ready() then this
      else
        var p := Pop();
        if p.Empty() then p else p.Checkpoint()
    }

    function Commit(lsn: Lsn): Ctx
      requires Shape()
    {
      Committed(lsn).Checkpoint()
    }

    function Deliver(at: int): Ctx
      requires Shape() && 0 <= at < XACT_LIST_LEN
    {
      Discharged(at).Checkpoint()
    }

    function Received(pos: Lsn): Ctx {
      this.(recvd := if pos > recvd then pos else recvd)
    }

    function Keepalive(pos: Lsn): Ctx
      requires Shape()
    {
      var c := Received(pos);
      if c.Empty() then c.(fsync := c.recvd) else c
    }

    // How many turns the checkpoint loop takes.
    ghost function Laps(): nat
      requires Shape()
      decreases Turns()
    {
      if !slots[tail].Ready() then 0
      else if Pop().Empty() then 1 else 1 + Pop().Laps()
    }

    // The in-flight transactions, oldest first.
    ghost function Queue(): (q: seq<Slot>)
      requires Shape()
      ensures |q| == Length()
    {
      seq(Length(), k requires 0 <= k < Length() => At(k))
    }
  }

  // The state that init_producer builds.
  function Initial(takingSnapshot: bool): (c: Ctx)
    ensures c.Shape() && c.Empty()
    ensures forall j :: 0 <= j < XACT_LIST_LEN ==> c.slots[j] == ZERO_SLOT
  {
    Ctx(seq(XACT_LIST_LEN, _ => ZERO_SLOT), XACT_LIST_LEN - 1, 0, 0, 0, takingSnapshot)
  }

  // ---- the loop stops ----

  /** From any head, tail and slot contents the loop takes at most one lap. */
  lemma {:induction false} CheckpointStops(c: Ctx)
    requires c.Shape()
    ensures c.Laps() <= c.Turns() <= XACT_LIST_LEN
    decreases c.Turns()
  {
    if !c.slots[c.tail].Ready() || c.Pop().Empty() {
    } else {
      CheckpointStops(c.Pop());
    }
  }

  lemma {:induction false} CheckpointIgnoresReceived(c: Ctx, pos: Lsn)
    requires c.Shape()
    ensures c.Received(pos).Checkpoint() == c.Checkpoint().Received(pos)
    decreases c.Turns()
  {
    if !c.slots[c.tail].Ready() {
    } else {
      assert c.Received(pos).Pop() == c.Pop().Received(pos);
      if c.Pop().Empty() {
      } else {
        CheckpointIgnoresReceived(c.Pop(), pos);
      }
    }
  }

  // ---- the buffer refines a FIFO queue ----

  // The number of leading elements that satisfy the loop's guard.
  ghost function ReadyPrefix(q: seq<Slot>): (n: nat)
    ensures n <= |q|
    ensures forall k :: 0 <= k < n ==> q[k].Ready()
    ensures n < |q| ==> !q[n].Ready()
  {
    if q == [] || !q[0].Ready() then 0 else 1 + ReadyPrefix(q[1..])
  }

  ghost predicate HasSnapshot(q: seq<Slot>) {
    exists k :: 0 <= k < |q| && q[k].SnapshotDone()
  }

  lemma PopQueue(c: Ctx)
    requires c.Shape() && !c.Empty()
    ensures c.Pop().Length() == c.Length() - 1
    ensures c.Pop().Queue() == c.Queue()[1..]
  {
  }

  // `r` is `c` with its `n` oldest transactions popped.
  ghost predicate Popped(c: Ctx, n: nat, r: Ctx)
    requires c.Shape() && r.Shape()
  {
    var q := c.Queue();
    && n <= |q|
    && r.Queue() == q[n..]
    && r.tail == Wrap(c.tail + n)
    && r.fsync == (if n == 0 then c.fsync else q[n - 1].commitLsn)
    && r.takingSnapshot == (c.takingSnapshot && !HasSnapshot(q[..n]))
  }

  lemma PoppedStep(c: Ctx, n: nat, r: Ctx)
    requires c.Shape() && r.Shape() && !c.Empty()
    requires Popped(c.Pop(), n, r)
    ensures Popped(c, n + 1, r)
  {
    PopQueue(c);
    var q := c.Queue();
    assert q[0] == c.slots[c.tail];
    assert q[n + 1..] == q[1..][n..];
    assert q[..n + 1] == [q[0]] + q[1..][..n];
    HasSnapshotCons(q[0], q[1..][..n]);
  }

  /** On a non-empty buffer the checkpoint loop pops exactly the maximal ready
      prefix, leaves every slot alone, and sets the flush position to the commit
      position of the last transaction popped. */
  lemma {:induction false} CheckpointPopsReadyPrefix(c: Ctx)
    requires c.Shape() && !c.Empty()
    ensures Popped(c, ReadyPrefix(c.Queue()), c.Checkpoint())
    ensures c.Laps() == ReadyPrefix(c.Queue())
    decreases c.Length()
  {
    var q, n := c.Queue(), ReadyPrefix(c.Queue());
    assert q[0] == c.slots[c.tail];
    if !q[0].Ready() {
    } else {
      var p := c.Pop();
      PopQueue(c);
      if p.Empty() {
        assert p.Queue() == [];
        assert Popped(p, 0, p);
      } else {
        CheckpointPopsReadyPrefix(p);
      }
      PoppedStep(c, n - 1, c.Checkpoint());
    }
  }

  lemma HasSnapshotCons(s: Slot, q: seq<Slot>)
    ensures HasSnapshot([s] + q) == (s.SnapshotDone() || HasSnapshot(q))
  {
    if s.SnapshotDone() {
      assert ([s] + q)[0].SnapshotDone();
    }
    if HasSnapshot(q) {
      var k :| 0 <= k < |q| && q[k].SnapshotDone();
      assert ([s] + q)[k + 1].SnapshotDone();
    }
  }

  /** Seen as a queue, the buffer is full with exactly a thousand transactions in
      flight, and empty with none. */
  lemma Capacity(c: Ctx)
    requires c.Shape()
    ensures c.Full() <==> |c.Queue()| == 1000
    ensures c.Empty() <==> c.Queue() == []
  {
  }

  /** Beginning a transaction on a buffer that is not full appends it, without
      touching the transactions already in flight. */
  lemma BeginAppends(c: Ctx, xid: nat)
    requires c.Shape() && !c.Full()
    ensures c.Begin(xid).Shape()
    ensures c.Begin(xid).Queue() == c.Queue() + [Slot(xid, 0, 0, 0)]
    ensures c.Begin(xid).tail == c.tail
  {
  }

  // The newest transaction is the one in the head's slot.
  lemma HeadIsNewest(c: Ctx, k: nat)
    requires c.Shape() && k < c.Length()
    ensures Wrap(c.tail + k) == c.head <==> k == c.Length() - 1
  {
  }

  /** Charging an event and recording a commit change the newest transaction alone:
      one more event received and pending, or the commit position. */
  lemma NewestChanges(c: Ctx, lsn: Lsn)
    requires c.Shape() && !c.Empty()
    ensures var q, n := c.Queue(), c.Length() - 1;
            && c.Charge().Queue()
               == q[n := Slot(q[n].xid, q[n].recvdEvents + 1, q[n].pendingEvents + 1, q[n].commitLsn)]
            && c.Committed(lsn).Queue() == q[n := Slot(q[n].xid, q[n].recvdEvents, q[n].pendingEvents, lsn)]
  {
    var q, n := c.Queue(), c.Length() - 1;
    var charged := Slot(q[n].xid, q[n].recvdEvents + 1, q[n].pendingEvents + 1, q[n].commitLsn);
    var committed := Slot(q[n].xid, q[n].recvdEvents, q[n].pendingEvents, lsn);
    HeadIsNewest(c, n);
    forall k: nat | k < |q|
      ensures c.Charge().Queue()[k] == q[n := charged][k]
      ensures c.Committed(lsn).Queue()[k] == q[n := committed][k]
    {
      HeadIsNewest(c, k);
    }
  }

  /** A report changes the transaction it is about alone: one event less pending. */
  lemma ReportedChanges(c: Ctx, k: nat)
    requires c.Shape() && k < c.Length()
    ensures var q := c.Queue();
            c.Discharged(Wrap(c.tail + k)).Queue()
            == q[k := Slot(q[k].xid, q[k].recvdEvents, q[k].pendingEvents - 1, q[k].commitLsn)]
  {
  }

  // ---- the initial snapshot ----

  // The buffer while the snapshot is the only transaction begun so far. The
  // tail may already have moved past it, because a snapshot that has no event
  // pending satisfies the loop's guard before it is committed.
  ghost predicate SnapshotOnly(c: Ctx) {
    && c.Shape()
    && c.head == 0
    && c.tail <= 1
    && c.slots[0].xid == 0
    && (forall j :: 1 <= j < XACT_LIST_LEN ==> c.slots[j] == ZERO_SLOT)
  }

  /** Starting past the snapshot, the loop walks every unused slot and comes
      back to slot 0 with a zero flush position. */
  lemma {:induction false} WalkUnusedSlots(c: Ctx)
    requires c.Shape() && c.head == 0 && 1 <= c.tail
    requires forall j :: 1 <= j < XACT_LIST_LEN ==> c.slots[j] == ZERO_SLOT
    ensures c.Checkpoint() == c.(tail := 0, fsync := 0).Checkpoint()
    decreases XACT_LIST_LEN - c.tail
  {
    assert c.slots[c.tail].Ready();
    var p := c.Pop();
    assert p.fsync == 0;
    if p.tail != 0 {
      assert !p.Empty();
      WalkUnusedSlots(p);
      assert p.(tail := 0, fsync := 0) == c.(tail := 0, fsync := 0);
    } else {
      assert p == c.(tail := 0, fsync := 0);
    }
  }

  lemma CheckpointAtSnapshot(c: Ctx)
    requires c.Shape() && c.head == 0 && c.tail == 0 && c.slots[0].xid == 0
    ensures c.Checkpoint() == if c.slots[0].pendingEvents == 0 then c.Pop() else c
  {
  }

  /** The loop leaves the tail on the snapshot exactly when events are pending,
      never reports a position other than zero or the snapshot's own commit
      position, and clears the snapshot flag only once the snapshot has been
      committed and has nothing pending. */
  lemma CheckpointDuringSnapshot(c: Ctx)
    requires SnapshotOnly(c) && c.fsync == 0
    ensures var r, s := c.Checkpoint(), c.slots[0];
            && SnapshotOnly(r)
            && r.tail == (if s.pendingEvents == 0 then 1 else 0)
            && r.fsync == (if s.pendingEvents == 0 then s.commitLsn else 0)
            && r.takingSnapshot == (c.takingSnapshot && !(s.pendingEvents == 0 && s.commitLsn > 0))
  {
    if c.tail == 1 {
      WalkUnusedSlots(c);
    }
    CheckpointAtSnapshot(c.(tail := 0, fsync := 0));
  }
}
