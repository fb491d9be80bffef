/** What the acknowledgement protocol guarantees, for every run: any log, any
    interleaving of deliveries, status updates, failures, crashes and restarts. */
module Guarantees {
  import opened Common
  import opened Ring
  import opened Protocol
  import opened Invariant
  import opened Preservation

  // ---- reachable states ----

  ghost predicate Reached(s: Sys) {
    exists states: seq<Sys>, steps: seq<Step>, k: nat :: ReachedAt(states, steps, k, s)
  }

  ghost predicate ReachedAt(states: seq<Sys>, steps: seq<Step>, k: nat, s: Sys) {
    IsRun(states, steps) && k < |states| && states[k] == s
  }

  lemma InitReached(s: Sys)
    requires Init(s)
    ensures Reached(s)
  {
    assert ReachedAt([s], [], 0, s);
  }

  lemma StepReached(s: Sys, step: Step)
    requires Reached(s) && Enabled(s, step)
    ensures Reached(Apply(s, step))
  {
    var states, steps, k: nat :| ReachedAt(states, steps, k, s);
    var s' := Apply(s, step);
    var states', steps' := states[..k + 1] + [s'], steps[..k] + [step];
    forall i | 0 <= i < |steps'|
      ensures StepTaken(states'[i], steps'[i], states'[i + 1])
    {
      if i < k {
        assert StepTaken(states[i], steps[i], states[i + 1]);
      }
    }
    assert ReachedAt(states', steps', k + 1, s');
  }

  lemma ReachedInv(s: Sys)
    requires Reached(s)
    ensures Inv(s)
  {
    var states, steps, k: nat :| ReachedAt(states, steps, k, s);
    RunInv(states, steps, k);
  }

  // ---- at-least-once delivery ----

  /** Every row of every stream transaction at or below the flush position the
      server holds was acknowledged by Kafka or deliberately skipped; only under
      the log policy may it instead have failed delivery with a logged error.
      The server therefore loses nothing by resending later transactions only. */
  lemma AtLeastOnce(s: Sys, e: Event)
    requires Reached(s)
    requires InLog(s.log, e) && !SnapshotAt(s.log, e.txn) && s.log[e.txn].commit <= s.flushed
    ensures e in s.acked || e in s.skipped || e in s.dropped
    ensures s.policy == ExitOnError ==> e in s.acked || e in s.skipped
  {
    ReachedInv(s);
    assert Handled(s, e.txn);
    assert Accounted(s, Event(e.txn, e.row));
  }

  // The table is in the active list whenever the list has been read.
  ghost predicate AlwaysActive(states: seq<Sys>, table: Oid) {
    forall k :: 0 <= k < |states| && states[k].proc.Some? && states[k].proc.value.loaded ==>
      table in states[k].proc.value.active
  }

  // Stream rows of the table that were skipped, although they had a key or a value to
  // send.
  ghost predicate WronglySkipped(s: Sys, table: Oid, e: Event) {
    && e in s.skipped && InLog(s.log, e) && !SnapshotAt(s.log, e.txn)
    && RowOf(s.log, e).relid == table && (RowOf(s.log, e).key.Some? || RowOf(s.log, e).value.Some?)
  }

  lemma SkipNotWrong(s: Sys, step: Step, table: Oid, e: Event)
    requires (s.proc.Some? ==> Shaped(s.log, s.proc.value)) && Enabled(s, step)
    requires s.proc.Some? && s.proc.value.loaded ==> table in s.proc.value.active
    requires !WronglySkipped(s, table, e)
    ensures !WronglySkipped(Apply(s, step), table, e)
  {
  }

  lemma {:induction false} ActiveNotSkipped(states: seq<Sys>, steps: seq<Step>, k: nat, table: Oid)
    requires IsRun(states, steps) && k < |states| && AlwaysActive(states, table)
    ensures forall e :: !WronglySkipped(states[k], table, e)
    decreases k
  {
    if k == 0 {
    } else {
      ActiveNotSkipped(states, steps, k - 1, table);
      RunInv(states, steps, k - 1);
      assert StepTaken(states[k - 1], steps[k - 1], states[k - 1 + 1]);
      forall e
        ensures !WronglySkipped(states[k], table, e)
      {
        SkipNotWrong(states[k - 1], steps[k - 1], table, e);
      }
    }
  }

  /** Under the exit policy, a stream row of a table that stays active, other than
      a delete without a key, is acknowledged by Kafka before the server may
      forget it. */
  lemma NothingLost(states: seq<Sys>, steps: seq<Step>, k: nat, e: Event)
    requires IsRun(states, steps) && k < |states| && states[k].policy == ExitOnError
    requires InLog(states[k].log, e) && !SnapshotAt(states[k].log, e.txn)
    requires AlwaysActive(states, RowOf(states[k].log, e).relid)
    requires RowOf(states[k].log, e).key.Some? || RowOf(states[k].log, e).value.Some?
    requires states[k].log[e.txn].commit <= states[k].flushed
    ensures e in states[k].acked
  {
    assert ReachedAt(states, steps, k, states[k]);
    AtLeastOnce(states[k], e);
    ActiveNotSkipped(states, steps, k, RowOf(states[k].log, e).relid);
    assert !WronglySkipped(states[k], RowOf(states[k].log, e).relid, e);
  }

  // ---- checkpoint safety ----

  lemma NotLiveNotCharged(s: Sys, c: Client, i: int)
    requires ClientInv(s, c) && !Live(c, Done(c), i)
    ensures OfTxn(Charged(c), i) == {}
  {
  }

  /** Whatever set it, the flush position of a running process never covers a
      transaction that is not fully received, that has an event outstanding, or
      that has a row neither acknowledged, skipped nor logged as dropped. */
  lemma CheckpointSafety(s: Sys, c: Client, i: nat)
    requires Reached(s) && s.proc == Some(c)
    requires i < |s.log| && s.log[i].commit <= c.ctx.fsync
    ensures i < c.next
    ensures OfTxn(Charged(c), i) == {}
    ensures c.first <= i || !SnapshotAt(s.log, i) ==> Handled(s, i)
  {
    ReachedInv(s);
    assert i < Done(c) && i < c.next;
    if c.first <= i {
      PoppedHandled(s, c, i);
    }
    NotLiveNotCharged(s, c, i);
  }

  /** A status update never reports a flush position beyond what was received, or
      beyond the start position of the slot. */
  lemma StatusWithinReceived(s: Sys, c: Client)
    requires Reached(s) && s.proc == Some(c)
    ensures c.ctx.fsync <= c.ctx.recvd || (SnapshotAt(s.log, 0) && c.first == 0 && c.ctx.fsync <= s.start)
  {
    ReachedInv(s);
  }

  // The position that a step receives, zero if none.
  ghost function Position(s: Sys, step: Step): Lsn {
    match step
    case Begin(pos) => pos
    case FrameEnd(pos) => pos
    case Keepalive(pos) => pos
    case Commit => CommitPosition(s)
    case _ => 0
  }

  // The snapshot's commit comes without a position.
  ghost function CommitPosition(s: Sys): Lsn {
    if s.proc.None? || s.proc.value.next >= |s.log| || SnapshotAt(s.log, s.proc.value.next) then 0
    else s.log[s.proc.value.next].commit
  }

  ghost predicate RaisedBy(before: Lsn, pos: Lsn, after: Lsn) {
    after == if pos > before then pos else before
  }

  lemma ReceivedStep(s: Sys, c: Client, step: Step, c': Client)
    requires s.proc == Some(c) && ClientEnabled(s, c, step) && ClientApply(s, c, step).proc == Some(c')
    ensures RaisedBy(c.ctx.recvd, Position(s, step), c'.ctx.recvd)
  {
    match step {
      case Begin(pos) =>
      case Commit =>
      case Deliver(e, ok) =>
      case Keepalive(pos) =>
      case _ =>
    }
  }

  ghost function Received(s: Sys): Lsn {
    if s.proc.Some? then s.proc.value.ctx.recvd else 0
  }

  lemma ReceivedTaken(states: seq<Sys>, steps: seq<Step>, j: nat)
    requires IsRun(states, steps) && j < |steps| && states[j].proc.Some? && states[j + 1].proc.Some?
    ensures RaisedBy(Received(states[j]), Position(states[j], steps[j]), Received(states[j + 1]))
  {
    assert StepTaken(states[j], steps[j], states[j + 1]);
    ReceivedStep(states[j], states[j].proc.value, steps[j], states[j + 1].proc.value);
  }

  // The largest of `first` and of the positions received by steps `k` to `m`.
  ghost predicate IsLargest(states: seq<Sys>, steps: seq<Step>, k: nat, m: nat, first: Lsn, r: Lsn)
    requires m <= |steps| < |states|
  {
    && first <= r
    && (forall j :: k <= j < m ==> Position(states[j], steps[j]) <= r)
    && (r == first || exists j :: k <= j < m && Position(states[j], steps[j]) == r)
  }

  lemma LargestNext(states: seq<Sys>, steps: seq<Step>, k: nat, m: nat, first: Lsn, r: Lsn, r': Lsn)
    requires k <= m < |steps| < |states| && IsLargest(states, steps, k, m, first, r)
    requires RaisedBy(r, Position(states[m], steps[m]), r')
    ensures IsLargest(states, steps, k, m + 1, first, r')
  {
    if r' == r && r != first {
      var j :| k <= j < m && Position(states[j], steps[j]) == r;
      assert Position(states[j], steps[j]) == r';
    }
  }

  // Each step raises the received position to the one it receives.
  ghost predicate AllRaised(states: seq<Sys>, steps: seq<Step>, k: nat, m: nat)
    requires m <= |steps| < |states|
  {
    forall j :: k <= j < m ==> RaisedBy(Received(states[j]), Position(states[j], steps[j]), Received(states[j + 1]))
  }

  lemma {:induction false} LargestOver(states: seq<Sys>, steps: seq<Step>, k: nat, m: nat)
    requires k <= m <= |steps| < |states| && AllRaised(states, steps, k, m)
    ensures IsLargest(states, steps, k, m, Received(states[k]), Received(states[m]))
    decreases m
  {
    if m == k {
    } else {
      LargestOver(states, steps, k, m - 1);
      assert RaisedBy(Received(states[m - 1]), Position(states[m - 1], steps[m - 1]), Received(states[m - 1 + 1]));
      LargestNext(states, steps, k, m - 1, Received(states[k]), Received(states[m - 1]), Received(states[m]));
    }
  }

  /** As long as a process runs, its received position is the largest of the one it
      had and of the positions it has received since. */
  lemma ReceivedIsLargest(states: seq<Sys>, steps: seq<Step>, k: nat, m: nat)
    requires IsRun(states, steps) && k <= m < |states|
    requires forall j :: k <= j <= m ==> states[j].proc.Some?
    ensures IsLargest(states, steps, k, m, Received(states[k]), Received(states[m]))
  {
    forall j | k <= j < m
      ensures RaisedBy(Received(states[j]), Position(states[j], steps[j]), Received(states[j + 1]))
    {
      ReceivedTaken(states, steps, j);
    }
    assert AllRaised(states, steps, k, m);
    LargestOver(states, steps, k, m);
  }

  lemma DrainMonotone(s: Sys, c: Client)
    requires Shaped(s.log, c) && PreDrain(s, c, Done(c)) && ValidLog(s.log, s.start)
    requires !InSnapshot(s.log, c) && !c.ctx.Empty()
    ensures c.ctx.fsync <= c.ctx.Checkpoint().fsync
  {
    var n := Drain(s.log, c);
    assert n > 0 ==> FlushSafe(s.log, c, Done(c));
  }

  lemma DeliverMonotone(s: Sys, c: Client, e: Event, ok: bool)
    requires ClientInv(s, c) && ValidLog(s.log, s.start) && CanDeliver(s, c, e, ok)
    ensures c.ctx.fsync <= DoDeliver(c, e).ctx.fsync
  {
    var s' := s.(acked := s.acked + {e});
    UnloadedPreDrain(s, c, e, s');
    DrainMonotone(s', Unloaded(c, e));
  }

  lemma CommitMonotone(s: Sys, c: Client)
    requires ClientInv(s, c) && ValidLog(s.log, s.start) && CanCommit(s, c)
    ensures c.ctx.fsync <= DoCommit(s, c).ctx.fsync
  {
  }

  lemma KeepaliveMonotone(s: Sys, c: Client, pos: Lsn)
    requires ClientInv(s, c) && CanKeepalive(s, c, pos)
    ensures c.ctx.fsync <= c.ctx.Keepalive(pos).fsync
  {
  }

  /** The flush position of a process never decreases. */
  lemma FlushMonotone(s: Sys, c: Client, step: Step, c': Client)
    requires Reached(s) && s.proc == Some(c)
    requires ClientEnabled(s, c, step) && ClientApply(s, c, step).proc == Some(c')
    ensures c.ctx.fsync <= c'.ctx.fsync
  {
    ReachedInv(s);
    match step {
      case Commit => CommitMonotone(s, c);
      case Deliver(e, ok) => DeliverMonotone(s, c, e, ok);
      case Keepalive(pos) => KeepaliveMonotone(s, c, pos);
      case _ =>
    }
  }

  // ---- ring ownership and conservation ----

  /** Every outstanding envelope points at a slot still held by the transaction
      that created it, and the next slot to be handed out is referenced by none. */
  lemma EnvelopeOwnership(s: Sys, c: Client, e: Event)
    requires Reached(s) && s.proc == Some(c) && e in c.envelopes
    ensures c.ctx.Shape() && Live(c, Done(c), e.txn) && e.txn < |s.log|
    ensures c.End() - XACT_LIST_LEN < e.txn < c.End() && c.envelopes[e] == SlotOf(c, e.txn)
    ensures c.ctx.slots[c.envelopes[e]].xid == s.log[e.txn].xid
    ensures !c.inTxn && !c.ctx.Full() ==> c.envelopes[e] != Wrap(c.ctx.head + 1)
  {
    ReachedInv(s);
    assert e in c.envelopes.Keys + c.failed;
    assert SlotMatches(s.log, c, e.txn);
  }

  lemma ChargesSplit(s: Sys, c: Client, i: int)
    requires ClientInv(s, c)
    ensures |OfTxn(Charged(c), i)|
            == |OfTxn(c.envelopes.Keys, i)| + |OfTxn(c.failed, i)| + (if c.sending && i == c.next then 1 else 0)
  {
    var sent := c.envelopes.Keys + c.failed;
    assert OfTxn(sent, i) == OfTxn(c.envelopes.Keys, i) + OfTxn(c.failed, i);
    if c.sending {
      assert c.Current() !in sent;
      CountAdd(sent, c.Current(), i);
      assert Charged(c) == sent + {c.Current()};
    } else {
      assert Charged(c) == sent;
    }
  }

  /** The pending count of every transaction in flight is the number of its
      outstanding envelopes, plus its events whose send failed before they were
      handed to Kafka, plus the one being sent. */
  lemma PendingConserved(s: Sys, c: Client, i: int)
    requires Reached(s) && s.proc == Some(c)
    ensures c.ctx.Shape()
    ensures Live(c, Done(c), i) ==>
              && c.End() - XACT_LIST_LEN < i < c.End()
              && c.ctx.slots[SlotOf(c, i)].pendingEvents
                 == |OfTxn(c.envelopes.Keys, i)| + |OfTxn(c.failed, i)|
                    + (if c.sending && i == c.next then 1 else 0)
  {
    ReachedInv(s);
    if Live(c, Done(c), i) {
      assert SlotMatches(s.log, c, i);
      ChargesSplit(s, c, i);
    }
  }

  /** The two consistency checks that would end the process never fire: a commit
      always names the transaction in the head slot, and no stream transaction
      is mistaken for the snapshot. */
  lemma FatalChecksNeverFire(s: Sys, c: Client)
    requires Reached(s) && s.proc == Some(c)
    ensures CanCommit(s, c) ==> c.ctx.slots[c.ctx.head].xid == s.log[c.next].xid
    ensures forall pos :: CanBegin(s, c, pos) ==> s.log[c.next].xid != 0
  {
    ReachedInv(s);
    if CanCommit(s, c) {
      assert Live(c, Done(c), c.next) && SlotMatches(s.log, c, c.next);
      assert SlotOf(c, c.next) == c.ctx.head;
    }
  }

  // ---- progress, and what the log policy does to it ----

  /** Between transactions and with every envelope reported, the ring is empty
      exactly when no send ever failed locally in this process. */
  lemma QuietRingEmpty(s: Sys, c: Client)
    requires Reached(s) && s.proc == Some(c) && !c.inTxn && c.envelopes == map[]
    ensures c.ctx.Shape()
    ensures c.ctx.Empty() <==> c.failed == {}
  {
    ReachedInv(s);
    if c.failed == {} {
      assert Charged(c) == {};
    } else {
      var e :| e in c.failed;
      FailedBlocksFlush(s, c, e);
    }
  }

  /** In that situation a keepalive acknowledges every transaction received
      exactly when no send failed locally. */
  lemma QuietKeepaliveAcknowledges(s: Sys, c: Client, pos: Lsn)
    requires Reached(s) && s.proc == Some(c) && !c.inTxn && c.envelopes == map[]
    requires CanKeepalive(s, c, pos) && c.first < c.next
    ensures (forall i :: 0 <= i < c.next ==> CommitOf(s.log, i) <= c.ctx.Keepalive(pos).fsync)
            <==> c.failed == {}
  {
    ReachedInv(s);
    QuietRingEmpty(s, c);
    if c.failed == {} {
      forall i | 0 <= i < c.next
        ensures CommitOf(s.log, i) <= c.ctx.Keepalive(pos).fsync
      {
        LastCommitReceived(s, c, pos, i);
      }
    } else {
      var e :| e in c.failed;
      FailedBlocksFlush(s, c, e);
      assert CommitOf(s.log, e.txn) > c.ctx.Keepalive(pos).fsync;
    }
  }

  lemma LastCommitReceived(s: Sys, c: Client, pos: Lsn, i: nat)
    requires ClientInv(s, c) && ValidLog(s.log, s.start) && s.start <= pos
    requires c.first < c.next && i < c.next && c.ctx.Empty()
    ensures CommitOf(s.log, i) <= c.ctx.Keepalive(pos).fsync
  {
    var last := c.next - 1;
    assert i < last ==> s.log[i].commit < s.log[last].commit;
  }

  lemma FailedBlocksFlush(s: Sys, c: Client, e: Event)
    requires ClientInv(s, c) && e in c.failed
    ensures e.txn < c.End() <= |s.log| && c.ctx.fsync < s.log[e.txn].commit && !c.ctx.Empty()
    ensures !c.inTxn ==> e.txn < c.next
  {
  }

  lemma FailedStays(s: Sys, c: Client, step: Step, e: Event)
    requires s.proc == Some(c) && ClientEnabled(s, c, step) && e in c.failed
    requires ClientApply(s, c, step).proc.Some?
    ensures e in ClientApply(s, c, step).proc.value.failed && ClientApply(s, c, step).log == s.log
  {
    match step {
      case SendFails =>
      case Deliver(d, ok) =>
      case Commit =>
      case Begin(pos) =>
      case _ =>
    }
  }

  /** A send that fails locally under the log policy is never taken off its slot:
      from then on the process acknowledges neither that transaction nor any
      later one, although the README says the update is dropped and acknowledged. */
  lemma {:induction false} FailedSendNeverAcknowledged(states: seq<Sys>, steps: seq<Step>, k: nat, m: nat, e: Event)
    requires IsRun(states, steps) && k <= m < |states|
    requires forall j :: k <= j <= m ==> states[j].proc.Some?
    requires e in states[k].proc.value.failed
    ensures e in states[m].proc.value.failed && states[m].log == states[k].log
    ensures forall i :: e.txn <= i < |states[m].log| ==> states[m].proc.value.ctx.fsync < states[m].log[i].commit
    decreases m
  {
    if m > k {
      FailedSendNeverAcknowledged(states, steps, k, m - 1, e);
      assert StepTaken(states[m - 1], steps[m - 1], states[m - 1 + 1]);
      FailedStays(states[m - 1], states[m - 1].proc.value, steps[m - 1], e);
    }
    RunInv(states, steps, m);
    FailedBlocksFlush(states[m], states[m].proc.value, e);
  }

  /** Such a send also bounds what the process can still take in: the ring holds
      every later transaction, so the process blocks for good before the
      thousandth. */
  lemma FailedSendStalls(s: Sys, c: Client, e: Event)
    requires Reached(s) && s.proc == Some(c) && e in c.failed
    ensures c.End() <= e.txn + MAX_IN_FLIGHT_TRANSACTIONS
    ensures forall pos :: CanBegin(s, c, pos) ==> c.next < e.txn + MAX_IN_FLIGHT_TRANSACTIONS
  {
    ReachedInv(s);
    assert e in c.envelopes.Keys + c.failed;
    assert Live(c, Done(c), e.txn);
  }
}
