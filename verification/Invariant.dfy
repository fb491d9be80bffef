/** The invariant of the acknowledgement protocol, and what each operation on the
    ring does to it. Preservation.dfy proves that every step keeps it. */
module Invariant {
  import opened Common
  import opened Ring
  import opened Protocol

  // ---- what the invariant speaks about ----

  // Index of the oldest transaction not yet popped from the ring.
  ghost function Done(c: Client): int
    requires c.ctx.Shape()
  {
    c.End() - c.ctx.Length()
  }

  // Still in the ring from transaction `d` on, or being received.
  ghost predicate Live(c: Client, d: int, i: int) {
    d <= i < c.End() || (c.inTxn && i == c.next)
  }

  // Where the ring keeps transaction `i`.
  ghost function SlotOf(c: Client, i: int): (k: int)
    requires c.ctx.Shape() && c.End() - XACT_LIST_LEN < i < c.End()
    ensures 0 <= k < XACT_LIST_LEN
  {
    Wrap(XACT_LIST_LEN + c.ctx.head + 1 - (c.End() - i))
  }

  // Events charged to a slot and not yet taken off again.
  ghost function Charged(c: Client): set<Event> {
    c.envelopes.Keys + c.failed + (if c.sending then {c.Current()} else {})
  }

  ghost function OfTxn(es: set<Event>, i: int): set<Event> {
    set e | e in es && e.txn == i
  }

  ghost predicate Accounted(s: Sys, e: Event) {
    e in s.acked || e in s.skipped || e in s.dropped
  }

  // Every row of transaction `i` was acknowledged, deliberately skipped, or
  // dropped with a logged error.
  ghost predicate Handled(s: Sys, i: nat)
    requires i < |s.log|
  {
    forall r :: 0 <= r < |s.log[i].rows| ==> Accounted(s, Event(i, r))
  }

  ghost predicate InSnapshot(log: Log, c: Client) {
    c.inTxn && SnapshotAt(log, c.next)
  }

  // ---- its parts; `d` stands for `Done(c)` ----

  ghost predicate Shaped(log: Log, c: Client) {
    && c.ctx.Shape()
    && c.first <= c.next <= |log|
    && (c.inTxn ==> c.next < |log| && c.row <= |log[c.next].rows|)
    && (!c.inTxn ==> c.row == 0 && !c.sending)
    && (c.sending ==> c.row < |log[c.next].rows|)
    && c.first <= Done(c)
    && (c.inTxn && !SnapshotAt(log, c.next) ==> !c.ctx.Empty())
    && (SnapshotAt(log, c.next) ==> c.inTxn)
    && (c.inTxn && !SnapshotAt(log, c.next) ==> c.loaded)
    && (InSnapshot(log, c) ==> Snapshotting(c))
  }

  ghost predicate Snapshotting(c: Client) {
    && SnapshotOnly(c.ctx)
    && c.first == 0 && c.next == 0
    && c.ctx.fsync == 0 && c.ctx.recvd == 0 && c.ctx.takingSnapshot
    && c.active == {} && !c.loaded
    && c.envelopes == map[] && c.failed == {} && !c.sending
  }

  ghost predicate SlotMatches(log: Log, c: Client, i: int)
    requires c.ctx.Shape() && c.End() - XACT_LIST_LEN < i < c.End()
    requires 0 <= i < |log|
  {
    var t := c.ctx.slots[SlotOf(c, i)];
    && t.xid == log[i].xid
    && t.pendingEvents == |OfTxn(Charged(c), i)|
    && t.commitLsn == (if i < c.next then log[i].commit else 0)
  }

  // The ring holds transactions `d` onwards.
  ghost predicate Holds(log: Log, c: Client, d: int) {
    && c.ctx.Shape()
    && 0 <= c.first <= d <= c.End() <= |log|
    && c.End() - d < XACT_LIST_LEN
    && c.first <= c.next
  }

  ghost predicate Slotted(log: Log, c: Client, d: int)
    requires Holds(log, c, d)
  {
    forall i :: Live(c, d, i) ==> SlotMatches(log, c, i)
  }

  // Gone through by the row loop already.
  ghost predicate Seen(log: Log, c: Client, e: Event) {
    && c.first <= e.txn < c.End()
    && InLog(log, e)
    && (e.txn == c.next ==> e.row < c.row)
  }

  ghost predicate Owned(log: Log, c: Client, d: int)
    requires Holds(log, c, d)
  {
    && (forall e :: e in c.envelopes.Keys + c.failed ==> Seen(log, c, e) && Live(c, d, e.txn))
    && (forall e :: e in c.envelopes ==> c.envelopes[e] == SlotOf(c, e.txn))
    && c.envelopes.Keys !! c.failed
  }

  ghost predicate Complete(s: Sys, c: Client) {
    forall e :: Seen(s.log, c, e) ==> e in Charged(c) || Accounted(s, e)
  }

  // The checkpoint loop has run: the oldest transaction in flight is either
  // still being received or has events outstanding.
  ghost predicate Drained(c: Client, d: int) {
    d < c.next ==> OfTxn(Charged(c), d) != {}
  }

  ghost predicate FlushSafe(log: Log, c: Client, d: int) {
    forall i :: 0 <= i < |log| && log[i].commit <= c.ctx.fsync ==> i < d && i < c.next
  }

  ghost predicate Positions(s: Sys, c: Client, d: int) {
    && FlushSafe(s.log, c, d)
    && (c.ctx.fsync <= c.ctx.recvd || (SnapshotAt(s.log, 0) && c.first == 0 && c.ctx.fsync <= s.start))
    && (forall i :: c.next <= i < |s.log| ==>
          if i == c.next && c.inTxn then c.ctx.recvd <= s.log[i].commit else c.ctx.recvd < s.log[i].commit)
    && (forall i :: c.first <= i < c.next && i < |s.log| && !SnapshotAt(s.log, i) ==>
          s.log[i].commit <= c.ctx.recvd)
  }

  ghost predicate Taking(log: Log, c: Client, d: int) {
    && (c.ctx.takingSnapshot ==> c.first == 0 && SnapshotAt(log, 0) && (d == 0 || InSnapshot(log, c)))
    && (c.first == 0 && SnapshotAt(log, 0) && !c.ctx.takingSnapshot ==> d > 0 && c.next > 0)
  }

  ghost predicate ClientInv(s: Sys, c: Client) {
    && Shaped(s.log, c)
    && ClientInvAt(s, c, Done(c))
  }

  ghost predicate ClientInvAt(s: Sys, c: Client, d: int) {
    && Holds(s.log, c, d)
    && Slotted(s.log, c, d)
    && Owned(s.log, c, d)
    && Complete(s, c)
    && Drained(c, d)
    && Positions(s, c, d)
    && Taking(s.log, c, d)
    && (s.policy == ExitOnError ==> c.failed == {})
  }

  // The slot began with a snapshot that is over, and no process gave it up.
  ghost predicate SnapshotPromised(s: Sys) {
    && SnapshotAt(s.log, 0)
    && s.slotExists && !s.abandoned
    && (s.proc.Some? ==> !s.proc.value.ctx.takingSnapshot)
  }

  ghost predicate ServerInv(s: Sys) {
    && ValidLog(s.log, s.start)
    && (s.policy == ExitOnError ==> s.dropped == {})
    && (forall i :: 0 <= i < |s.log| && !SnapshotAt(s.log, i) && s.log[i].commit <= s.flushed ==> Handled(s, i))
    && (SnapshotPromised(s) ==> Handled(s, 0))
  }

  // How the position held by the server relates to the running process.
  ghost predicate LinkInv(s: Sys, c: Client)
    requires c.ctx.Shape()
  {
    && s.slotExists
    && (forall i :: 0 <= i < c.first && i < |s.log| && !SnapshotAt(s.log, i) ==> Handled(s, i))
    && (forall i :: c.first <= i < |s.log| && !SnapshotAt(s.log, i) && s.log[i].commit <= s.flushed ==>
          i < Done(c) && i < c.next)
  }

  ghost predicate Inv(s: Sys) {
    && ServerInv(s)
    && (s.proc.Some? ==> ClientInv(s, s.proc.value) && LinkInv(s, s.proc.value))
  }

  // ---- consequences ----

  /** Every transaction popped after its commit was seen has been handled. */
  lemma PoppedHandled(s: Sys, c: Client, i: nat)
    requires ClientInv(s, c)
    requires c.first <= i < c.next && i < Done(c)
    ensures Handled(s, i)
  {
  }

  lemma EmptyCount(es: set<Event>, i: int)
    ensures |OfTxn(es, i)| == 0 <==> OfTxn(es, i) == {}
  {
  }

  // ---- the checkpoint loop, seen from the transactions ----

  lemma SlotFromTail(c: Client, i: int)
    requires c.ctx.Shape() && Done(c) <= i < c.End()
    ensures SlotOf(c, i) == Wrap(c.ctx.tail + (i - Done(c)))
    ensures c.ctx.Queue()[i - Done(c)] == c.ctx.slots[SlotOf(c, i)]
  {
  }

  ghost function CommitOf(log: Log, i: int): Lsn {
    if 0 <= i < |log| then log[i].commit else 0
  }

  // What the loop does to a client whose slots match its transactions.
  ghost predicate DrainedBy(log: Log, c: Client, n: nat, c': Client)
    requires c.ctx.Shape() && c'.ctx.Shape()
  {
    && c' == c.(ctx := c'.ctx)
    && c'.ctx.slots == c.ctx.slots && c'.ctx.head == c.ctx.head && c'.ctx.recvd == c.ctx.recvd
    && Done(c') == Done(c) + n
    && Done(c') <= c.next <= |log|
    && (forall i :: Done(c) <= i < Done(c') ==> OfTxn(Charged(c), i) == {})
    && Drained(c', Done(c'))
    && c'.ctx.fsync == (if n == 0 then c.ctx.fsync else CommitOf(log, Done(c') - 1))
    && c'.ctx.takingSnapshot == (c.ctx.takingSnapshot && !(n > 0 && SnapshotAt(log, Done(c))))
  }

  lemma ReadyIffHandled(log: Log, c: Client, k: nat)
    requires Shaped(log, c) && Slotted(log, c, Done(c)) && GoodLog(log)
    requires !InSnapshot(log, c) && k < c.ctx.Length()
    ensures c.ctx.Queue()[k].Ready() <==> Done(c) + k < c.next && OfTxn(Charged(c), Done(c) + k) == {}
    ensures Done(c) + k < c.next ==>
              && (c.ctx.Queue()[k].SnapshotDone() <==> SnapshotAt(log, Done(c) + k))
              && c.ctx.Queue()[k].commitLsn == CommitOf(log, Done(c) + k)
  {
    QueueMatches(log, c, k);
    EmptyCount(Charged(c), Done(c) + k);
  }

  lemma QueueMatches(log: Log, c: Client, k: nat)
    requires Shaped(log, c) && Slotted(log, c, Done(c))
    requires k < c.ctx.Length()
    ensures var t, i := c.ctx.Queue()[k], Done(c) + k;
            && 0 <= i < c.End() <= |log|
            && t.xid == log[i].xid
            && t.pendingEvents == |OfTxn(Charged(c), i)|
            && t.commitLsn == (if i < c.next then log[i].commit else 0)
  {
    var i := Done(c) + k;
    SlotFromTail(c, i);
    assert Live(c, Done(c), i);
    assert SlotMatches(log, c, i);
  }

  ghost predicate GoodLog(log: Log) {
    && (forall j :: 0 <= j < |log| ==> log[j].commit > 0)
    && (forall j :: 1 <= j < |log| ==> log[j].xid != 0)
  }

  lemma DrainPrefix(log: Log, c: Client, n: nat)
    requires Shaped(log, c) && Slotted(log, c, Done(c)) && GoodLog(log)
    requires !InSnapshot(log, c) && n == ReadyPrefix(c.ctx.Queue())
    ensures Done(c) + n <= c.next
    ensures forall i :: Done(c) <= i < Done(c) + n ==> OfTxn(Charged(c), i) == {}
    ensures Done(c) + n < c.next ==> OfTxn(Charged(c), Done(c) + n) != {}
    ensures n > 0 ==> c.ctx.Queue()[n - 1].commitLsn == CommitOf(log, Done(c) + n - 1)
  {
    var d := Done(c);
    forall i | d <= i < d + n
      ensures i < c.next && OfTxn(Charged(c), i) == {}
    {
      ReadyIffHandled(log, c, i - d);
    }
    if n > 0 {
      ReadyIffHandled(log, c, n - 1);
    }
    if d + n < c.next {
      ReadyIffHandled(log, c, n);
    }
  }

  lemma DrainSnapshotFlag(log: Log, c: Client, n: nat)
    requires Shaped(log, c) && Slotted(log, c, Done(c)) && GoodLog(log)
    requires !InSnapshot(log, c)
    requires n <= c.ctx.Length() && Done(c) + n <= c.next
    ensures HasSnapshot(c.ctx.Queue()[..n]) <==> n > 0 && SnapshotAt(log, Done(c))
  {
    var q := c.ctx.Queue();
    forall k | 0 <= k < n
      ensures q[..n][k].SnapshotDone() <==> SnapshotAt(log, Done(c) + k)
    {
      ReadyIffHandled(log, c, k);
    }
    if n > 0 && SnapshotAt(log, Done(c)) {
      assert q[..n][0].SnapshotDone();
    }
  }

  lemma DrainEffect(log: Log, c: Client, n: nat, ctx: Ctx)
    requires Shaped(log, c) && Slotted(log, c, Done(c)) && GoodLog(log)
    requires !InSnapshot(log, c) && n == ReadyPrefix(c.ctx.Queue())
    requires ctx.Shape() && Popped(c.ctx, n, ctx)
    requires ctx.slots == c.ctx.slots && ctx.head == c.ctx.head && ctx.recvd == c.ctx.recvd
    ensures DrainedBy(log, c, n, c.(ctx := ctx))
  {
    var c' := c.(ctx := ctx);
    assert |ctx.Queue()| == c.ctx.Length() - n;
    DrainPrefix(log, c, n);
    DrainSnapshotFlag(log, c, n);
    assert Charged(c') == Charged(c);
  }

  /** Seen from the transactions, the checkpoint loop moves the tail over exactly
      the leading committed transactions with nothing outstanding. */
  lemma Drain(log: Log, c: Client) returns (n: nat)
    requires Shaped(log, c) && Slotted(log, c, Done(c)) && GoodLog(log)
    requires !InSnapshot(log, c) && !c.ctx.Empty()
    ensures DrainedBy(log, c, n, c.(ctx := c.ctx.Checkpoint()))
  {
    n := ReadyPrefix(c.ctx.Queue());
    CheckpointPopsReadyPrefix(c.ctx);
    DrainEffect(log, c, n, c.ctx.Checkpoint());
  }
}
