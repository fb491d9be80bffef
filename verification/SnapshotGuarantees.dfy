/** The initial snapshot: what the ring does while it is being received, and what
    becomes of it across exits and restarts. */
module SnapshotGuarantees {
  import opened Common
  import opened Ring
  import opened Protocol
  import opened Invariant
  import opened Preservation
  import opened Guarantees

  // ---- the ring alone, for any traffic during the snapshot ----

  datatype Traffic = RowSent | RowReported

  // The callbacks that may run between the snapshot's begin and its commit. A
  // report is about an event that is still pending.
  ghost function AfterTraffic(c: Ctx, ops: seq<Traffic>): Ctx
    requires SnapshotOnly(c)
    decreases |ops|
  {
    if ops == [] then c
    else if ops[0].RowSent? then AfterTraffic(c.Charge(), ops[1..])
    else if c.slots[0].pendingEvents > 0 && SnapshotOnly(c.Deliver(0)) then AfterTraffic(c.Deliver(0), ops[1..])
    else AfterTraffic(c, ops[1..])
  }

  ghost predicate SnapshotQuiet(c: Ctx) {
    && SnapshotOnly(c)
    && c.fsync == 0 && c.takingSnapshot
    && c.slots[0].commitLsn == 0 && c.slots[0].pendingEvents >= 0
  }

  lemma DeliverDuringSnapshot(c: Ctx)
    requires SnapshotQuiet(c) && c.slots[0].pendingEvents > 0
    ensures SnapshotQuiet(c.Deliver(0))
    ensures c.Deliver(0).slots[0].pendingEvents == c.slots[0].pendingEvents - 1
  {
    CheckpointDuringSnapshot(c.Discharged(0));
  }

  lemma {:induction false} TrafficKeepsSnapshot(c: Ctx, ops: seq<Traffic>)
    requires SnapshotQuiet(c)
    ensures SnapshotQuiet(AfterTraffic(c, ops))
    decreases |ops|
  {
    if ops == [] {
    } else if ops[0].RowSent? {
      TrafficKeepsSnapshot(c.Charge(), ops[1..]);
    } else if c.slots[0].pendingEvents > 0 {
      DeliverDuringSnapshot(c);
      TrafficKeepsSnapshot(c.Deliver(0), ops[1..]);
    } else {
      TrafficKeepsSnapshot(c, ops[1..]);
    }
  }

  /** Whatever rows are sent and reported during the snapshot, in any order, and
      however often the tail runs round the unused slots: the tail is on slot 0
      or 1, the flush position is zero and the snapshot flag is set. Once the
      commit is seen, the flag is cleared exactly when nothing is pending, and
      then the flush position is the snapshot's. */
  lemma SnapshotWrapAround(ops: seq<Traffic>, start: Lsn)
    requires start > 0
    ensures SnapshotOnly(Initial(true).Begin(0))
    ensures var c := AfterTraffic(Initial(true).Begin(0), ops);
            && SnapshotOnly(c) && c.fsync == 0 && c.takingSnapshot
            && var done := c.slots[0].pendingEvents == 0;
            && var r := c.Commit(start);
            && SnapshotOnly(r)
            && r.tail == (if done then 1 else 0)
            && r.fsync == (if done then start else 0)
            && r.takingSnapshot == !done
  {
    var b := Initial(true).Begin(0);
    assert SnapshotQuiet(b);
    TrafficKeepsSnapshot(b, ops);
    CheckpointDuringSnapshot(AfterTraffic(b, ops).Committed(start));
  }

  // ---- the ring after the snapshot's commit ----

  datatype Later =
    | BeginTxn(xid: nat)
    | RowCharged
    | Reported(slot: nat)
    | CommitTxn(lsn: Lsn)
    | KeepaliveAt(pos: Lsn)

  // Rows and commits come only inside a transaction, begin blocks on a full
  // buffer, and a report is about a slot with an event pending.
  ghost function AfterOne(c: Ctx, op: Later): (r: Ctx)
    requires c.Shape()
    ensures r.Shape()
  {
    match op
    case BeginTxn(xid) => if c.Full() then c else c.Begin(xid)
    case RowCharged => if c.slots[c.head].commitLsn == 0 then c.Charge() else c
    case Reported(at) => if at < XACT_LIST_LEN && c.slots[at].pendingEvents > 0 then c.Deliver(at) else c
    case CommitTxn(lsn) => if c.slots[c.head].commitLsn == 0 then c.Commit(lsn) else c
    case KeepaliveAt(pos) => c.Keepalive(pos)
  }

  ghost function AfterLater(c: Ctx, ops: seq<Later>): Ctx
    requires c.Shape()
    decreases |ops|
  {
    if ops == [] then c else AfterLater(AfterOne(c, ops[0]), ops[1..])
  }

  // The reports about slot 0, where the snapshot is.
  ghost function ReportsOnSnapshot(ops: seq<Later>): nat {
    if ops == [] then 0 else (if ops[0] == Reported(0) then 1 else 0) + ReportsOnSnapshot(ops[1..])
  }

  // The snapshot is committed, with `n` events to be reported.
  ghost predicate SnapshotPending(c: Ctx, n: nat) {
    && c.Shape() && c.tail == 0 && c.head <= XACT_LIST_LEN - 2
    && c.takingSnapshot && c.fsync == 0
    && c.slots[0].xid == 0 && c.slots[0].commitLsn > 0 && c.slots[0].pendingEvents == n
  }

  lemma {:induction false} CheckpointKeepsClear(c: Ctx)
    requires c.Shape() && !c.takingSnapshot
    ensures !c.Checkpoint().takingSnapshot
    decreases c.Turns()
  {
    if !c.slots[c.tail].Ready() || c.Pop().Empty() {
    } else {
      CheckpointKeepsClear(c.Pop());
    }
  }

  lemma {:induction false} LaterKeepsClear(c: Ctx, ops: seq<Later>)
    requires c.Shape() && !c.takingSnapshot
    ensures !AfterLater(c, ops).takingSnapshot
    decreases |ops|
  {
    if ops == [] {
    } else {
      if ops[0].CommitTxn? {
        CheckpointKeepsClear(c.Committed(ops[0].lsn));
      } else if ops[0].Reported? && ops[0].slot < XACT_LIST_LEN {
        CheckpointKeepsClear(c.Discharged(ops[0].slot));
      }
      LaterKeepsClear(AfterOne(c, ops[0]), ops[1..]);
    }
  }

  lemma PendingStep(c: Ctx, n: nat, op: Later)
    requires SnapshotPending(c, n) && n > 0 && (op == Reported(0) ==> n > 1)
    ensures SnapshotPending(AfterOne(c, op), if op == Reported(0) then n - 1 else n)
  {
  }

  // The last report pops the snapshot.
  lemma LastReportClears(c: Ctx)
    requires SnapshotPending(c, 1)
    ensures !AfterOne(c, Reported(0)).takingSnapshot
  {
    var d := c.Discharged(0);
    assert d.slots[0].Ready() && !d.Pop().takingSnapshot;
    if !d.Pop().Empty() {
      CheckpointKeepsClear(d.Pop());
    }
  }

  lemma {:induction false} PendingUntilReported(c: Ctx, n: nat, ops: seq<Later>)
    requires SnapshotPending(c, n) && n > 0
    ensures AfterLater(c, ops).takingSnapshot <==> ReportsOnSnapshot(ops) < n
    ensures AfterLater(c, ops).takingSnapshot ==> SnapshotPending(AfterLater(c, ops), n - ReportsOnSnapshot(ops))
    decreases |ops|
  {
    if ops == [] {
    } else if ops[0] == Reported(0) && n == 1 {
      LastReportClears(c);
      LaterKeepsClear(AfterOne(c, ops[0]), ops[1..]);
    } else {
      PendingStep(c, n, ops[0]);
      PendingUntilReported(AfterOne(c, ops[0]), if ops[0] == Reported(0) then n - 1 else n, ops[1..]);
    }
  }

  /** After the snapshot's commit, whatever transactions follow: the snapshot flag
      stays set exactly until the last event pending at the commit is reported,
      and until then the tail stays on slot 0 and the flush position at zero. */
  lemma SnapshotFlagCleared(ops: seq<Traffic>, start: Lsn, later: seq<Later>)
    requires start > 0
    ensures SnapshotOnly(Initial(true).Begin(0))
    ensures var c := AfterTraffic(Initial(true).Begin(0), ops);
            && SnapshotOnly(c)
            && var r := AfterLater(c.Commit(start), later);
            && (r.takingSnapshot <==> ReportsOnSnapshot(later) < c.slots[0].pendingEvents)
            && (r.takingSnapshot ==> r.tail == 0 && r.fsync == 0)
  {
    SnapshotWrapAround(ops, start);
    var b := Initial(true).Begin(0);
    assert SnapshotQuiet(b);
    TrafficKeepsSnapshot(b, ops);
    var c := AfterTraffic(b, ops);
    var n := c.slots[0].pendingEvents;
    if n == 0 {
      LaterKeepsClear(c.Commit(start), later);
    } else {
      assert SnapshotPending(c.Commit(start), n);
      PendingUntilReported(c.Commit(start), n, later);
    }
  }

  // ---- the whole client: the active list is empty until streaming starts ----

  ghost predicate NoSnapshotRow(s: Sys) {
    && (forall e :: e in s.topic ==> !SnapshotAt(s.log, e.txn))
    && (forall e :: e in s.acked + s.dropped ==> !SnapshotAt(s.log, e.txn))
    && (s.proc.Some? ==> forall e :: e in Charged(s.proc.value) ==> !SnapshotAt(s.log, e.txn))
  }

  lemma ChargedStep(s: Sys, c: Client, step: Step, c': Client, e: Event)
    requires s.proc == Some(c) && ClientEnabled(s, c, step) && ClientApply(s, c, step).proc == Some(c')
    requires e in Charged(c')
    ensures e in Charged(c) || (step.StartSend? && e == c.Current())
  {
    if step.Enqueue? || step.SendFails? {
      assert c.Current() in Charged(c);
      assert c'.envelopes.Keys + c'.failed <= c.envelopes.Keys + c.failed + {c.Current()};
    } else {
      assert c'.envelopes.Keys <= c.envelopes.Keys && c'.failed == c.failed;
    }
  }

  lemma ActiveNotSnapshot(s: Sys, c: Client)
    requires Shaped(s.log, c) && c.active != {}
    ensures !InSnapshot(s.log, c)
  {
  }

  lemma StoredStep(s: Sys, c: Client, step: Step, e: Event)
    requires s.proc == Some(c) && ClientEnabled(s, c, step)
    ensures e in ClientApply(s, c, step).topic ==> e in s.topic || e in Charged(c)
    ensures e in ClientApply(s, c, step).acked + ClientApply(s, c, step).dropped ==>
              e in s.acked + s.dropped || e in Charged(c) || (step.Discard? && e == c.Current())
    ensures ClientApply(s, c, step).log == s.log
  {
  }

  lemma NoSnapshotRowStep(s: Sys, step: Step)
    requires s.proc.Some? ==> Shaped(s.log, s.proc.value)
    requires Enabled(s, step) && NoSnapshotRow(s)
    ensures NoSnapshotRow(Apply(s, step))
  {
    var s' := Apply(s, step);
    if s.proc.Some? {
      var c := s.proc.value;
      if step.StartSend? || step.Discard? {
        ActiveNotSnapshot(s, c);
      }
      forall e
        ensures e in s'.topic || e in s'.acked + s'.dropped ==> !SnapshotAt(s'.log, e.txn)
      {
        StoredStep(s, c, step, e);
      }
      forall e | s'.proc.Some? && e in Charged(s'.proc.value)
        ensures !SnapshotAt(s'.log, e.txn)
      {
        StoredStep(s, c, step, e);
        ChargedStep(s, c, step, s'.proc.value, e);
      }
    }
  }

  /** No row of the snapshot is ever handed to Kafka, let alone acknowledged: the
      table list that decides what is sent is read only on the streaming branch,
      so it is still empty while the snapshot is received. The README promises
      that the snapshot is exported. */
  lemma {:induction false} SnapshotRowsNeverSent(states: seq<Sys>, steps: seq<Step>, k: nat)
    requires IsRun(states, steps) && k < |states|
    ensures NoSnapshotRow(states[k])
    decreases k
  {
    if k == 0 {
    } else {
      SnapshotRowsNeverSent(states, steps, k - 1);
      RunInv(states, steps, k - 1);
      assert StepTaken(states[k - 1], steps[k - 1], states[k - 1 + 1]);
      NoSnapshotRowStep(states[k - 1], steps[k - 1]);
    }
  }

  lemma ReachedNoSnapshotRow(s: Sys)
    requires Reached(s)
    ensures NoSnapshotRow(s)
  {
    var states, steps, k: nat :| ReachedAt(states, steps, k, s);
    SnapshotRowsNeverSent(states, steps, k);
  }

  // ---- ending a process during the snapshot ----

  /** As long as no process left the slot behind during the snapshot, a slot whose
      snapshot is not in progress had every row of it received and handled. */
  lemma SnapshotHandled(s: Sys)
    requires Reached(s) && SnapshotPromised(s)
    ensures Handled(s, 0)
  {
    ReachedInv(s);
  }

  // A slot whose snapshot is unfinished and that no process is working on.
  ghost predicate Orphaned(s: Sys) {
    && s.slotExists && SnapshotAt(s.log, 0) && !Handled(s, 0)
    && (s.proc.Some? ==> s.proc.value.first >= 1 && !s.proc.value.ctx.takingSnapshot)
  }

  lemma OrphanedClientStep(s: Sys, c: Client, step: Step, r: nat)
    requires ClientInv(s, c) && s.proc == Some(c) && ClientEnabled(s, c, step) && c.first >= 1
    requires !Accounted(s, Event(0, r))
    ensures !Accounted(ClientApply(s, c, step), Event(0, r))
  {
  }

  lemma SlotSurvives(s: Sys, c: Client, step: Step)
    requires s.proc == Some(c) && ClientEnabled(s, c, step) && !c.ctx.takingSnapshot && s.slotExists
    ensures ClientApply(s, c, step).slotExists && ClientApply(s, c, step).log == s.log
    ensures ClientApply(s, c, step).proc.Some? ==> ClientApply(s, c, step).proc.value.first == c.first
  {
  }

  // A row stays unhandled, and the slot orphaned.
  lemma OrphanedRowStep(s: Sys, step: Step, r: nat)
    requires Inv(s) && Enabled(s, step) && Orphaned(s) && !Accounted(s, Event(0, r))
    ensures !Accounted(Apply(s, step), Event(0, r))
  {
    if s.proc.Some? {
      OrphanedClientStep(s, s.proc.value, step, r);
    } else {
      assert !step.Recreate?;
    }
  }

  lemma OrphanedStep(s: Sys, step: Step)
    requires Inv(s) && Enabled(s, step) && Orphaned(s)
    ensures Orphaned(Apply(s, step))
  {
    StepKeeps(s, step);
    var r: nat :| r < |s.log[0].rows| && !Accounted(s, Event(0, r));
    OrphanedRowStep(s, step, r);
    if s.proc.Some? {
      SlotSurvives(s, s.proc.value, step);
    }
  }

  /** Once a slot is orphaned it stays so, and each snapshot row that was not
      handled is never handled, whatever processes run afterwards. */
  lemma {:induction false} OrphanedForever(states: seq<Sys>, steps: seq<Step>, k: nat, m: nat)
    requires IsRun(states, steps) && k <= m < |states| && Orphaned(states[k])
    ensures Orphaned(states[m])
    ensures forall r: nat :: !Accounted(states[k], Event(0, r)) ==> !Accounted(states[m], Event(0, r))
    decreases m
  {
    if m == k {
    } else {
      OrphanedForever(states, steps, k, m - 1);
      RunInv(states, steps, m - 1);
      assert StepTaken(states[m - 1], steps[m - 1], states[m - 1 + 1]);
      OrphanedStep(states[m - 1], steps[m - 1]);
      forall r: nat | !Accounted(states[k], Event(0, r))
        ensures !Accounted(states[m], Event(0, r))
      {
        OrphanedRowStep(states[m - 1], steps[m - 1], r);
      }
    }
  }

  /** An exit during an unfinished snapshot orphans the slot exactly when the
      status is zero or the slot could not be dropped. */
  lemma ExitOrphans(s: Sys, c: Client, status: int, dropSucceeds: bool)
    requires Reached(s) && s.proc == Some(c) && c.ctx.takingSnapshot
    requires SnapshotAt(s.log, 0) && !Handled(s, 0)
    ensures Orphaned(DoExit(s, c, status, dropSucceeds)) <==> status == 0 || !dropSucceeds
  {
    ReachedInv(s);
    var s' := DoExit(s, c, status, dropSucceeds);
    assert forall e :: Accounted(s', e) <==> Accounted(s, e);
    assert !Handled(s', 0);
  }

  /** A kill during an unfinished snapshot always does. */
  lemma KillOrphans(s: Sys, c: Client)
    requires Reached(s) && s.proc == Some(c) && c.ctx.takingSnapshot
    requires SnapshotAt(s.log, 0) && !Handled(s, 0)
    ensures Orphaned(Apply(s, Kill))
  {
    ReachedInv(s);
    var s' := Apply(s, Kill);
    assert forall e :: Accounted(s', e) <==> Accounted(s, e);
    assert !Handled(s', 0);
  }
}
