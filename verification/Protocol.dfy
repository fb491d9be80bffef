/** The acknowledgement protocol as a state machine: one Postgres replication
    slot, the client process with its ring of in-flight transactions, and Kafka,
    with any number of crashes and restarts.

    Sources: kafka/bottledwater.c (callbacks, checkpoint loop, exit rule),
    client/replication.c (positions, keepalives, status updates),
    client/connect.c (start-up and the switch from snapshot to stream),
    client/protocol_client.c (which rows are handed to the callbacks).

    The environment is the argument of each step. What it may do is written out
    in `Enabled`; what the code does is written out in `Apply`. */
module Protocol {
  import opened Common
  import opened Ring

  // One row message as the client receives it; a delete has no value.
  datatype Row = Row(relid: Oid, key: Option<Bytes>, value: Option<Bytes>)

  datatype Txn = Txn(xid: nat, commit: Lsn, rows: seq<Row>)

  // Everything the slot will ever deliver, oldest first. If the slot was
  // created with a snapshot, the snapshot comes first, as a transaction with
  // xid 0 that commits at the slot's start position.
  type Log = seq<Txn>

  // A row event, by its place in the log.
  datatype Event = Event(txn: nat, row: nat)

  datatype Policy = LogErrors | ExitOnError

  datatype Client = Client(
    ctx: Ctx,
    first: nat,                 // index of the first transaction of this process
    next: nat,                  // index of the transaction being or to be received
    inTxn: bool,                // between begin and commit of log[next]
    row: nat,                   // rows of log[next] handled so far
    sending: bool,              // inside send_kafka_msg for that row
    envelopes: map<Event, int>, // handed to Kafka, not yet reported; with the slot pointed to
    appended: set<Event>,       // written to the topic by this process
    failed: set<Event>,         // charged, but never handed to Kafka
    active: set<Oid>,           // the active table list
    loaded: bool                // the active table list has been read
  ) {
    // One past the last transaction begun.
    function End(): nat {
      if inTxn then next + 1 else next
    }

    // The event of the row being handled.
    function Current(): Event {
      Event(next, row)
    }

    predicate Streaming(log: Log) {
      !inTxn || (next < |log| && log[next].xid != 0)
    }
  }

  datatype Sys = Sys(
    log: Log,
    start: Lsn,                 // the slot's consistent point
    policy: Policy,
    slotExists: bool,              // the replication slot exists
    flushed: Lsn,               // the flush position the server holds for it
    proc: Option<Client>,       // the client process, if one is running
    topic: seq<Event>,          // what Kafka has stored, in order
    acked: set<Event>,          // delivery reported as successful, by any process
    skipped: set<Event>,        // received and deliberately not sent
    dropped: set<Event>,        // not sent, or not delivered, and the error was only logged
    abandoned: bool             // some process ended during the snapshot and left the slot
  )

  datatype Step =
    | Begin(pos: Lsn)
    | Skip
    | Discard
    | StartSend
    | Enqueue
    | SendFails
    | FrameEnd(pos: Lsn)
    | Commit
    | Append(event: Event)
    | Deliver(event: Event, ok: bool)
    | Keepalive(pos: Lsn)
    | Status(stored: bool)
    | Reload(tables: set<Oid>)
    | Exit(status: int, dropSucceeds: bool)
    | Kill
    | Forget(position: Lsn)
    | Restart(first: nat)
    | Recreate(log: Log, start: Lsn)

  // ---- the environment ----

  predicate SnapshotAt(log: Log, i: int) {
    0 <= i < |log| && log[i].xid == 0
  }

  predicate ValidLog(log: Log, start: Lsn) {
    && start > 0
    && (forall i, j :: 0 <= i < j < |log| ==> log[i].commit < log[j].commit)
    && (forall i :: 1 <= i < |log| ==> log[i].xid != 0)
    && (forall i :: 0 <= i < |log| ==> log[i].commit > (if log[i].xid == 0 then start - 1 else start))
    && (SnapshotAt(log, 0) ==> log[0].commit == start)
  }

  // A delete on a table without a key; the insert callback always sends.
  predicate KeylessDelete(row: Row) {
    row.key.None? && row.value.None?
  }

  predicate Sendable(row: Row, active: set<Oid>) {
    row.relid in active && !KeylessDelete(row)
  }

  // Rows of the same table with the same key go to the same partition.
  predicate SameKey(log: Log, a: Event, b: Event) {
    && InLog(log, a) && InLog(log, b)
    && RowOf(log, a).relid == RowOf(log, b).relid
    && RowOf(log, a).key.Some?
    && RowOf(log, a).key == RowOf(log, b).key
  }

  predicate InLog(log: Log, e: Event) {
    e.txn < |log| && e.row < |log[e.txn].rows|
  }

  function RowOf(log: Log, e: Event): Row
    requires InLog(log, e)
  {
    log[e.txn].rows[e.row]
  }

  predicate Before(a: Event, b: Event) {
    a.txn < b.txn || (a.txn == b.txn && a.row < b.row)
  }

  // ---- processes ----

  function FreshProcess(first: nat): Client {
    Client(Initial(false), first, first, false, 0, false, map[], {}, {}, {}, false)
  }

  // A process that has just created the slot and begun the snapshot.
  function SnapshotProcess(): Client {
    Client(Initial(true).Begin(0), 0, 0, true, 0, false, map[], {}, {}, {}, false)
  }

  function NewSlot(log: Log, start: Lsn, policy: Policy): Sys {
    Sys(log, start, policy, true, start,
        Some(if SnapshotAt(log, 0) then SnapshotProcess() else FreshProcess(0)),
        [], {}, {}, {}, false)
  }

  predicate Init(s: Sys) {
    ValidLog(s.log, s.start) && s == NewSlot(s.log, s.start, s.policy)
  }

  ghost predicate CanBegin(s: Sys, c: Client, pos: Lsn) {
    // Frames are read from the stream only after the active list was loaded.
    // A full ring blocks here; the callbacks run meanwhile are Deliver steps.
    && !c.sending && !c.inTxn && c.loaded && c.next < |s.log|
    && c.ctx.Shape() && !c.ctx.Full()
    && pos <= s.log[c.next].commit
  }

  ghost predicate AtRow(s: Sys, c: Client) {
    c.inTxn && InLog(s.log, c.Current()) && c.ctx.Shape()
  }

  ghost predicate CanEndFrame(s: Sys, c: Client, pos: Lsn) {
    && !c.sending && c.inTxn && c.next < |s.log| && s.log[c.next].xid != 0
    && pos <= s.log[c.next].commit
  }

  ghost predicate CanCommit(s: Sys, c: Client) {
    && !c.sending && c.inTxn && c.next < |s.log| && c.row == |s.log[c.next].rows|
    && c.ctx.Shape()
  }

  // Kafka stores the messages of one key in the order they were enqueued.
  ghost predicate CanAppend(s: Sys, c: Client, e: Event) {
    && e in c.envelopes && e !in c.appended
    && (forall d :: d in c.envelopes && SameKey(s.log, d, e) && Before(d, e) ==> d in c.appended)
  }

  // A failed delivery ends the process under the exit policy (see `Exit`).
  ghost predicate CanDeliver(s: Sys, c: Client, e: Event, ok: bool) {
    && e in c.envelopes && 0 <= c.envelopes[e] < XACT_LIST_LEN && c.ctx.Shape()
    && (if ok then e in c.appended else s.policy == LogErrors)
  }

  // The server has sent everything that commits at or below `pos`.
  ghost predicate CanKeepalive(s: Sys, c: Client, pos: Lsn) {
    && !c.sending && c.loaded && c.Streaming(s.log) && c.ctx.Shape()
    && s.start <= pos
    && (c.next < |s.log| ==> pos < s.log[c.next].commit)
  }

  // The server resends exactly the transactions above the position it holds.
  ghost predicate CanRestart(s: Sys, first: nat) {
    && s.proc.None? && s.slotExists && first <= |s.log|
    && (SnapshotAt(s.log, 0) ==> first >= 1)
    && (forall i :: 0 <= i < first ==> SnapshotAt(s.log, i) || s.log[i].commit <= s.flushed)
    && (first < |s.log| ==> s.log[first].commit > s.flushed)
  }

  // What the environment may do while a process is running.
  ghost predicate ClientEnabled(s: Sys, c: Client, step: Step) {
    match step
    case Begin(pos) => CanBegin(s, c, pos)
    case Skip => AtRow(s, c) && !c.sending && !Sendable(RowOf(s.log, c.Current()), c.active)
    // A row of a table without recorded schemas, or a malformed message; under
    // the exit policy it ends the process. (A row whose bytes do not decode is
    // sent all the same under the log policy.)
    case Discard =>
      AtRow(s, c) && !c.sending && s.policy == LogErrors && RowOf(s.log, c.Current()).relid in c.active
    case StartSend => AtRow(s, c) && !c.sending && Sendable(RowOf(s.log, c.Current()), c.active)
    case Enqueue => AtRow(s, c) && c.sending
    // Under the exit policy a failed send ends the process instead.
    case SendFails => AtRow(s, c) && c.sending && s.policy == LogErrors
    case FrameEnd(pos) => CanEndFrame(s, c, pos)
    case Commit => CanCommit(s, c)
    case Append(e) => CanAppend(s, c, e)
    case Deliver(e, ok) => CanDeliver(s, c, e, ok)
    case Keepalive(pos) => CanKeepalive(s, c, pos)
    case Status(_) => c.ctx.recvd != 0
    // Only on the streaming branch of the poll loop.
    case Reload(_) => !c.sending && c.Streaming(s.log)
    case Exit(_, _) => true
    case Kill => true
    case _ => false
  }

  ghost predicate Enabled(s: Sys, step: Step) {
    if s.proc.Some? then ClientEnabled(s, s.proc.value, step)
    else
      match step
      // A server restart may bring back an older stored position.
      case Forget(f) => f <= s.flushed
      case Restart(first) => CanRestart(s, first)
      case Recreate(log, start) => !s.slotExists && ValidLog(log, start)
      case _ => false
  }

  // ---- the code ----

  ghost function DoBegin(s: Sys, c: Client, pos: Lsn): Client
    requires CanBegin(s, c, pos)
  {
    c.(ctx := c.ctx.Begin(s.log[c.next].xid).Received(pos), inTxn := true, row := 0)
  }

  ghost function DoStartSend(c: Client): Client
    requires c.ctx.Shape()
  {
    c.(ctx := c.ctx.Charge(), sending := true)
  }

  ghost function DoEnqueue(c: Client): Client {
    c.(sending := false, row := c.row + 1, envelopes := c.envelopes[c.Current() := c.ctx.head])
  }

  ghost function DoSendFails(c: Client): Client {
    c.(sending := false, row := c.row + 1, failed := c.failed + {c.Current()})
  }

  // The snapshot's commit callback is not driven by a stream frame, so it does
  // not move the received position.
  ghost function DoCommit(s: Sys, c: Client): Client
    requires CanCommit(s, c)
  {
    var t := s.log[c.next];
    var ctx := c.ctx.Commit(t.commit);
    c.(ctx := if t.xid == 0 then ctx else ctx.Received(t.commit),
       inTxn := false, next := c.next + 1, row := 0)
  }

  ghost function DoDeliver(c: Client, e: Event): Client
    requires c.ctx.Shape() && e in c.envelopes && 0 <= c.envelopes[e] < XACT_LIST_LEN
  {
    c.(ctx := c.ctx.Deliver(c.envelopes[e]), envelopes := c.envelopes - {e})
  }

  // The slot is dropped only by a failing exit during the snapshot.
  ghost function DoExit(s: Sys, c: Client, status: int, dropSucceeds: bool): Sys {
    var taking := c.ctx.takingSnapshot;
    var drop := taking && status != 0 && dropSucceeds;
    s.(proc := None, slotExists := !drop, abandoned := s.abandoned || (taking && !drop))
  }

  // The server ignores an invalid (zero) position, and an update may be lost.
  ghost function DoStatus(s: Sys, c: Client, stored: bool): Sys {
    if stored && c.ctx.fsync != 0 then s.(flushed := c.ctx.fsync) else s
  }

  ghost function ClientApply(s: Sys, c: Client, step: Step): Sys
    requires ClientEnabled(s, c, step)
  {
    match step
    case Begin(pos) => s.(proc := Some(DoBegin(s, c, pos)))
    case Skip => s.(proc := Some(c.(row := c.row + 1)), skipped := s.skipped + {c.Current()})
    case Discard => s.(proc := Some(c.(row := c.row + 1)), dropped := s.dropped + {c.Current()})
    case StartSend => s.(proc := Some(DoStartSend(c)))
    case Enqueue => s.(proc := Some(DoEnqueue(c)))
    case SendFails => s.(proc := Some(DoSendFails(c)))
    case FrameEnd(pos) => s.(proc := Some(c.(ctx := c.ctx.Received(pos))))
    case Commit => s.(proc := Some(DoCommit(s, c)))
    case Append(e) => s.(proc := Some(c.(appended := c.appended + {e})), topic := s.topic + [e])
    case Deliver(e, ok) =>
      if ok then s.(proc := Some(DoDeliver(c, e)), acked := s.acked + {e})
      else s.(proc := Some(DoDeliver(c, e)), dropped := s.dropped + {e})
    case Keepalive(pos) => s.(proc := Some(c.(ctx := c.ctx.Keepalive(pos))))
    case Status(stored) => DoStatus(s, c, stored)
    case Reload(tables) => s.(proc := Some(c.(active := tables, loaded := true)))
    case Exit(status, dropSucceeds) => DoExit(s, c, status, dropSucceeds)
    case Kill => s.(proc := None, abandoned := s.abandoned || c.ctx.takingSnapshot)
  }

  ghost function Apply(s: Sys, step: Step): Sys
    requires Enabled(s, step)
  {
    if s.proc.Some? then ClientApply(s, s.proc.value, step)
    else
      match step
      case Forget(f) => s.(flushed := f)
      case Restart(first) => s.(proc := Some(FreshProcess(first)))
      case Recreate(log, start) => NewSlot(log, start, s.policy)
  }

  // ---- runs ----

  ghost predicate IsRun(states: seq<Sys>, steps: seq<Step>) {
    && |states| == |steps| + 1
    && Init(states[0])
    && forall k :: 0 <= k < |steps| ==> StepTaken(states[k], steps[k], states[k + 1])
  }

  ghost predicate StepTaken(s: Sys, step: Step, s': Sys) {
    Enabled(s, step) && s' == Apply(s, step)
  }
}
