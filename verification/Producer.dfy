/** The producer's callbacks as the client runs them, updating the ring in place
    (kafka/bottledwater.c, client/replication.c). Each method is tied to the
    operation on `Ring.Ctx` that the protocol model uses.

    What librdkafka does is an argument: the delivery reports in the order they
    come, how many of them each poll hands to the callback, and the answers to
    each produce call. */
module Producer {
  import opened Common
  import opened Ring

  // A delivery report for the envelope that points at `slot`.
  datatype Report = Report(slot: nat, ok: bool)

  // One round of backpressure: how many of the reports to come the poll hands
  // over, whether a shutdown signal has come, whether a status update is due, and
  // whether sending it fails.
  datatype Poll = Poll(count: nat, shutdown: bool, due: bool, sendFails: bool)

  // One call of rd_kafka_produce: whether it took the message, whether the error
  // code reads "queue full" afterwards, and, if so, the round of backpressure.
  datatype Attempt = Attempt(taken: bool, queueFull: bool, poll: Poll)

  // A status update sent to Postgres.
  datatype Status = Status(recvd: Lsn, fsync: Lsn)

  datatype Outcome =
    | Success
    | Failed        // a local error, for the caller's error policy to handle
    | Fatal         // the process exits with a failure status
    | ShutDown      // the process exits with status zero
    | Waiting       // still blocked when the given polls are used up
  {
    predicate Exits() {
      Fatal? || ShutDown?
    }
  }

  // ---- what the callbacks compute ----

  ghost predicate ValidReports(reports: seq<Report>) {
    forall k :: 0 <= k < |reports| ==> reports[k].slot < XACT_LIST_LEN
  }

  ghost function Deliveries(c: Ctx, reports: seq<Report>): (r: Ctx)
    requires c.Shape() && ValidReports(reports)
    ensures r.Shape() && r.head == c.head && r.recvd == c.recvd
    decreases |reports|
  {
    if reports == [] then c
    else
      var n := |reports| - 1;
      Deliveries(c, reports[..n]).Deliver(reports[n].slot)
  }

  // The state after the first `m` reports.
  ghost predicate Handled(c: Ctx, reports: seq<Report>, m: nat, r: Ctx) {
    && c.Shape() && ValidReports(reports) && m <= |reports|
    && r == Deliveries(c, reports[..m])
  }

  lemma HandledNone(c: Ctx, reports: seq<Report>)
    requires c.Shape() && ValidReports(reports)
    ensures Handled(c, reports, 0, c)
  {
  }

  lemma HandledNext(c: Ctx, reports: seq<Report>, m: nat, r: Ctx)
    requires Handled(c, reports, m, r) && m < |reports| && r.Shape()
    ensures Handled(c, reports, m + 1, r.Deliver(reports[m].slot))
  {
    assert reports[..m + 1][..m] == reports[..m];
  }

  // Where a poll that hands over `count` reports gets to.
  function Until(reports: seq<Report>, lo: nat, count: nat): nat {
    Least(lo + count, |reports|)
  }

  ghost predicate AllDelivered(reports: seq<Report>, lo: nat, hi: nat, exitOnError: bool)
    requires hi <= |reports|
  {
    exitOnError ==> forall k :: lo <= k < hi ==> reports[k].ok
  }

  // How many reports the first `k` rounds hand over, of `n` in all.
  ghost function Polled(polls: seq<Poll>, k: nat, n: nat): (m: nat)
    requires k <= |polls|
    ensures m <= n
  {
    if k == 0 then 0 else Least(Polled(polls, k - 1, n) + polls[k - 1].count, n)
  }

  ghost function PolledSending(attempts: seq<Attempt>, k: nat, n: nat): (m: nat)
    requires k <= |attempts|
    ensures m <= n
  {
    if k == 0 then 0 else Least(PolledSending(attempts, k - 1, n) + attempts[k - 1].poll.count, n)
  }

  // The round sends a status update, and that fails.
  predicate StatusFails(poll: Poll, recvd: Lsn) {
    poll.due && poll.sendFails && recvd != 0
  }

  // Round `j` found the buffer full, and the process went on after it.
  ghost predicate RoundPassed(c: Ctx, reports: seq<Report>, polls: seq<Poll>, j: nat, recvd: Lsn) {
    && c.Shape() && ValidReports(reports) && j < |polls|
    && |Deliveries(c, reports[..Polled(polls, j, |reports|)]).Queue()| == 1000
    && !polls[j].shutdown && !StatusFails(polls[j], recvd)
  }

  function Least(a: nat, b: nat): nat {
    if a < b then a else b
  }

  function Max(a: Lsn, b: Lsn): Lsn {
    if a > b then a else b
  }

  // ---- the producer context ----

  class Producer {
    const xactList: array<Slot>
    const exitOnError: bool
    var xactHead: int
    var xactTail: int
    var fsyncLsn: Lsn
    var recvdLsn: Lsn
    var takingSnapshot: bool

    ghost predicate Valid()
      reads this
    {
      && xactList.Length == XACT_LIST_LEN
      && 0 <= xactHead < XACT_LIST_LEN
      && 0 <= xactTail < XACT_LIST_LEN
    }

    ghost function View(): (c: Ctx)
      reads this, xactList
      requires Valid()
      ensures c.Shape()
    {
      Ctx(xactList[..], xactHead, xactTail, fsyncLsn, recvdLsn, takingSnapshot)
    }

    constructor (taking: bool, exitPolicy: bool)
      ensures Valid() && fresh(xactList) && exitOnError == exitPolicy
      ensures View() == Initial(taking)
    {
      xactList := new Slot[XACT_LIST_LEN](_ => ZERO_SLOT);
      exitOnError := exitPolicy;
      xactHead, xactTail := XACT_LIST_LEN - 1, 0;
      fsyncLsn, recvdLsn := 0, 0;
      takingSnapshot := taking;
    }

    predicate Empty()
      reads this
      requires Valid()
    {
      (XACT_LIST_LEN + xactHead + 1 - xactTail) % XACT_LIST_LEN == 0
    }

    predicate Full()
      reads this
      requires Valid()
    {
      (XACT_LIST_LEN + xactHead + 1 - xactTail) % XACT_LIST_LEN == XACT_LIST_LEN - 1
    }

    lemma LengthAgrees()
      requires Valid()
      ensures Empty() <==> View().Empty()
      ensures Full() <==> View().Full()
    {
    }

    method IsFull() returns (full: bool)
      requires Valid()
      ensures full <==> View().Full()
    {
      LengthAgrees();
      full := Full();
    }

    method MaybeCheckpoint()
      requires Valid()
      modifies this`xactTail, this`fsyncLsn, this`takingSnapshot
      ensures Valid() && View() == old(View()).Checkpoint()
    {
      ghost var goal := View().Checkpoint();
      while xactList[xactTail].Ready()
        invariant Valid() && View().Checkpoint() == goal
        decreases View().Turns()
      {
        ghost var before := View();
        var xact := xactList[xactTail];
        fsyncLsn := xact.commitLsn;
        if xact.xid == 0 && xact.commitLsn > 0 {
          takingSnapshot := false;
        }
        WrapIsModulo(xactTail + 1);
        xactTail := (xactTail + 1) % XACT_LIST_LEN;
        assert View() == before.Pop();
        LengthAgrees();
        if Empty() { break; }
      }
    }

    method OnDeliverMsg(report: Report) returns (outcome: Outcome)
      requires Valid() && report.slot < XACT_LIST_LEN
      modifies this`xactTail, this`fsyncLsn, this`takingSnapshot, xactList
      ensures Valid()
      ensures outcome == if exitOnError && !report.ok then Fatal else Success
      ensures View() == if outcome.Fatal? then old(View()) else old(View()).Deliver(report.slot)
    {
      if !report.ok && exitOnError {
        return Fatal;
      }
      var s := xactList[report.slot];
      xactList[report.slot] := s.(pendingEvents := s.pendingEvents - 1);
      assert View() == old(View()).Discharged(report.slot);
      MaybeCheckpoint();
      outcome := Success;
    }

    // The delivery callback for one report.
    method HandleReport(reports: seq<Report>, m: nat, ghost start: Ctx) returns (ok: bool, m': nat)
      requires Valid() && m < |reports| && Handled(start, reports, m, View())
      modifies this`xactTail, this`fsyncLsn, this`takingSnapshot, xactList
      ensures Valid()
      ensures ok <==> !(exitOnError && !reports[m].ok)
      ensures m' == if ok then m + 1 else m
      ensures Handled(start, reports, m', View())
    {
      HandledNext(start, reports, m, View());
      var outcome := OnDeliverMsg(reports[m]);
      ok := outcome.Success?;
      m' := if ok then m + 1 else m;
    }

    // The delivery callback for the reports before `hi`, up to the first that ends
    // the process. The first `lo` reports since `start` were handled before.
    method HandleReports(reports: seq<Report>, lo: nat, hi: nat, ghost start: Ctx) returns (ok: bool, m: nat)
      requires Valid() && lo <= hi <= |reports| && Handled(start, reports, lo, View())
      modifies this`xactTail, this`fsyncLsn, this`takingSnapshot, xactList
      ensures Valid() && lo <= m <= hi && Handled(start, reports, m, View())
      ensures ok <==> m == hi
      ensures ok <==> AllDelivered(reports, lo, hi, exitOnError)
      ensures AllDelivered(reports, lo, m, exitOnError)
      ensures !ok ==> exitOnError && !reports[m].ok
    {
      ok, m := true, lo;
      while ok && m < hi
        invariant Valid() && Handled(start, reports, m, View())
        invariant lo <= m <= hi && AllDelivered(reports, lo, m, exitOnError)
        invariant !ok ==> m < hi && exitOnError && !reports[m].ok
        decreases hi - m, ok
      {
        ok, m := HandleReport(reports, m, start);
      }
    }

    // Why a round that starts at report `lo` and stops at report `m` ends the process.
    ghost predicate RoundExits(poll: Poll, reports: seq<Report>, lo: nat, m: nat, outcome: Outcome)
      reads this
    {
      var hi := Until(reports, lo, poll.count);
      match outcome
      case ShutDown => m == hi && poll.shutdown
      case Fatal =>
        || (lo <= m < hi && exitOnError && !reports[m].ok)
        || (m == hi && !poll.shutdown && StatusFails(poll, recvdLsn))
      case _ => false
    }

    /** One round of backpressure. The polled reports are handled in order, up to
        the first that ends the process. Then a shutdown signal ends it; otherwise
        a status update goes out if one is due and anything was received. */
    method Backpressure(poll: Poll, reports: seq<Report>, lo: nat, ghost start: Ctx)
      returns (outcome: Outcome, status: Option<Status>, m: nat)
      requires Valid() && lo <= |reports| && Handled(start, reports, lo, View())
      modifies this`xactTail, this`fsyncLsn, this`takingSnapshot, xactList
      ensures Valid() && lo <= m <= Until(reports, lo, poll.count) && Handled(start, reports, m, View())
      ensures var hi := Until(reports, lo, poll.count);
              && (m < hi ==> exitOnError && !reports[m].ok)
              && (m == hi <==> AllDelivered(reports, lo, hi, exitOnError))
              && AllDelivered(reports, lo, m, exitOnError)
              && outcome == if m < hi then Fatal
                            else if poll.shutdown then ShutDown
                            else if poll.due && poll.sendFails && recvdLsn != 0 then Fatal
                            else Success
      ensures status == if outcome.Success? && poll.due && recvdLsn != 0 then Some(Status(View().recvd, View().fsync))
                        else None
    {
      var ok;
      ok, m := HandleReports(reports, lo, Until(reports, lo, poll.count), start);
      status := None;
      if !ok {
        outcome := Fatal;
      } else if poll.shutdown {
        outcome := ShutDown;
      } else if recvdLsn != 0 && poll.due {
        if poll.sendFails {
          outcome := Fatal;
        } else {
          outcome, status := Success, Some(Status(recvdLsn, fsyncLsn));
        }
      } else {
        outcome := Success;
      }
    }

    // Round `k` of waiting for room.
    method BlockedRound(reports: seq<Report>, polls: seq<Poll>, k: nat, lo: nat, ghost start: Ctx)
      returns (outcome: Outcome, m: nat)
      requires Valid() && k < |polls| && Handled(start, reports, lo, View()) && View().Full()
      requires lo == Polled(polls, k, |reports|) && AllDelivered(reports, 0, lo, exitOnError)
      modifies this`xactTail, this`fsyncLsn, this`takingSnapshot, xactList
      ensures Valid() && Handled(start, reports, m, View()) && AllDelivered(reports, 0, m, exitOnError)
      ensures outcome.Success? ==>
                m == Polled(polls, k + 1, |reports|) && RoundPassed(start, reports, polls, k, recvdLsn)
      ensures !outcome.Success? ==> outcome.Exits() && RoundExits(polls[k], reports, lo, m, outcome)
    {
      Capacity(View());
      var status;
      outcome, status, m := Backpressure(polls[k], reports, lo, start);
    }

    // Blocks while the buffer is full, for `k` rounds.
    method WaitForRoom(reports: seq<Report>, polls: seq<Poll>) returns (outcome: Outcome, m: nat, k: nat)
      requires Valid() && ValidReports(reports)
      modifies this`xactTail, this`fsyncLsn, this`takingSnapshot, xactList
      ensures Valid() && k <= |polls| && Handled(old(View()), reports, m, View())
      ensures outcome.Success? || outcome.Waiting? || outcome.Exits()
      ensures outcome.Success? ==> !View().Full()
      ensures outcome.Waiting? ==> View().Full() && k == |polls|
      ensures !outcome.Exits() ==> m == Polled(polls, k, |reports|)
      ensures outcome.Exits() ==> k < |polls| && RoundExits(polls[k], reports, Polled(polls, k, |reports|), m, outcome)
      ensures forall j :: 0 <= j < k ==> RoundPassed(old(View()), reports, polls, j, recvdLsn)
      ensures AllDelivered(reports, 0, m, exitOnError)
      ensures !old(View()).Full() ==> k == 0 && outcome.Success?
    {
      ghost var start := View();
      HandledNone(start, reports);
      m, k := 0, 0;
      var full := IsFull();
      while full && k < |polls|
        invariant Valid() && Handled(start, reports, m, View()) && (full <==> View().Full())
        invariant k <= |polls| && m == Polled(polls, k, |reports|) && AllDelivered(reports, 0, m, exitOnError)
        invariant !start.Full() ==> !full && k == 0
        invariant forall j :: 0 <= j < k ==> RoundPassed(start, reports, polls, j, recvdLsn)
      {
        var ended, next := BlockedRound(reports, polls, k, m, start);
        m := next;
        if ended != Success {
          return ended, m, k;
        }
        k := k + 1;
        full := IsFull();
      }
      outcome := if full then Waiting else Success;
    }

    method OpenSlot(xid: nat)
      requires Valid()
      modifies this`xactHead, xactList
      ensures Valid() && View() == old(View()).Begin(xid)
    {
      WrapIsModulo(xactHead + 1);
      xactHead := (xactHead + 1) % XACT_LIST_LEN;
      xactList[xactHead] := Slot(xid, 0, 0, 0);
      assert View() == old(View()).Begin(xid);
    }

    /** Blocks while a thousand transactions are in flight. Whatever the outcome, the
        next reports were handled in order and nothing else happened; on success
        the new transaction was then appended to a buffer with room. The process
        ends only for a reason, and a snapshot anywhere but first is one. */
    method OnBeginTxn(xid: nat, reports: seq<Report>, polls: seq<Poll>)
      returns (outcome: Outcome, m: nat, k: nat, ghost before: Ctx)
      requires Valid() && ValidReports(reports)
      modifies this, xactList
      ensures Valid() && k <= |polls| && before.Shape() && Handled(old(View()), reports, m, before)
      ensures View() == if outcome.Success? then before.Begin(xid) else before
      ensures outcome.Success? || outcome.Waiting? || outcome.Exits()
      ensures outcome.Success? ==> |before.Queue()| < 1000
      ensures outcome.Waiting? ==> |before.Queue()| == 1000 && k == |polls|
      ensures !outcome.Exits() ==> m == Polled(polls, k, |reports|)
      ensures forall j :: 0 <= j < k ==> RoundPassed(old(View()), reports, polls, j, recvdLsn)
      ensures AllDelivered(reports, 0, m, exitOnError)
      ensures xid == 0 && !(old(View()).Empty() && old(View()).tail == 0) ==> outcome.Fatal? && m == k == 0
      ensures xid == 0 ==> outcome.Success? || outcome.Fatal?
      ensures |old(View()).Queue()| < 1000 && (xid == 0 ==> old(View()).Empty() && old(View()).tail == 0) ==>
                outcome.Success? && m == k == 0
      ensures xid != 0 && outcome.Exits() ==>
                k < |polls| && RoundExits(polls[k], reports, Polled(polls, k, |reports|), m, outcome)
    {
      LengthAgrees();
      Capacity(View());
      HandledNone(View(), reports);
      if xid == 0 && !(xactTail == 0 && Empty()) {
        return Fatal, 0, 0, View();
      }
      outcome, m, k := WaitForRoom(reports, polls);
      before := View();
      Capacity(before);
      if outcome.Success? {
        OpenSlot(xid);
      }
    }

    method OnCommitTxn(walPos: Lsn, xid: nat) returns (outcome: Outcome)
      requires Valid()
      modifies this`xactTail, this`fsyncLsn, this`takingSnapshot, xactList
      ensures Valid()
      ensures outcome == if xid == old(View()).slots[xactHead].xid then Success else Fatal
      ensures View() == if outcome.Success? then old(View()).Commit(walPos) else old(View())
    {
      if xid != xactList[xactHead].xid {
        return Fatal;
      }
      xactList[xactHead] := xactList[xactHead].(commitLsn := walPos);
      assert View() == old(View()).Committed(walPos);
      MaybeCheckpoint();
      outcome := Success;
    }

    method ChargeEvent()
      requires Valid()
      modifies xactList
      ensures View() == old(View()).Charge()
    {
      var xact := xactList[xactHead];
      xactList[xactHead] := xact.(recvdEvents := xact.recvdEvents + 1, pendingEvents := xact.pendingEvents + 1);
      assert View() == old(View()).Charge();
    }

    // What the `k`-th call of rd_kafka_produce, with `lo` reports handled before it,
    // makes of the send.
    ghost predicate AttemptEnds(attempt: Attempt, reports: seq<Report>, lo: nat, m: nat, outcome: Outcome)
      reads this
    {
      if attempt.queueFull then
        || RoundExits(attempt.poll, reports, lo, m, outcome)
        || (attempt.taken && outcome.Success? && m == Until(reports, lo, attempt.poll.count)
            && !attempt.poll.shutdown && !StatusFails(attempt.poll, recvdLsn))
      else m == lo && outcome == if attempt.taken then Success else Failed
    }

    // The queue was full, the message not taken, and backpressure went well.
    ghost predicate Retried(attempt: Attempt)
      reads this
    {
      !attempt.taken && attempt.queueFull && !attempt.poll.shutdown && !StatusFails(attempt.poll, recvdLsn)
    }

    // Offers the message to Kafka until it is taken, applying backpressure while
    // the queue is full.
    method Produce(reports: seq<Report>, attempts: seq<Attempt>) returns (outcome: Outcome, m: nat, k: nat)
      requires Valid() && ValidReports(reports)
      modifies this`xactTail, this`fsyncLsn, this`takingSnapshot, xactList
      ensures Valid() && k <= |attempts| && Handled(old(View()), reports, m, View())
      ensures k == |attempts| ==> outcome.Waiting? && m == PolledSending(attempts, k, |reports|)
      ensures k < |attempts| ==>
                AttemptEnds(attempts[k], reports, PolledSending(attempts, k, |reports|), m, outcome)
      ensures forall j :: 0 <= j < k ==> Retried(attempts[j])
      ensures AllDelivered(reports, 0, m, exitOnError)
    {
      ghost var start := View();
      HandledNone(start, reports);
      m := 0;
      for i := 0 to |attempts|
        invariant Valid() && Handled(start, reports, m, View())
        invariant m == PolledSending(attempts, i, |reports|)
        invariant forall j :: 0 <= j < i ==> Retried(attempts[j])
        invariant AllDelivered(reports, 0, m, exitOnError)
      {
        var enqueued := attempts[i].taken;
        if attempts[i].queueFull {
          var status;
          outcome, status, m := Backpressure(attempts[i].poll, reports, m, start);
          if outcome != Success {
            return outcome, m, i;
          }
        } else if !enqueued {
          return Failed, m, i;
        }
        if enqueued {
          return Success, m, i;
        }
      }
      outcome, k := Waiting, |attempts|;
    }

    /** Charges the event first. If the message is taken, the envelope points at
        the slot the event was charged to; if a step fails, the charge stays.
        Whatever the outcome, the next reports were handled in order and nothing
        else happened. The call is repeated exactly while the queue is full and
        the message is not taken. It succeeds as soon as the message is taken, and
        the process ends only for a reason. */
    method SendKafkaMsg(encodable: bool, reports: seq<Report>, attempts: seq<Attempt>)
      returns (outcome: Outcome, envelope: int, m: nat, k: nat)
      requires Valid() && ValidReports(reports)
      modifies this`xactTail, this`fsyncLsn, this`takingSnapshot, xactList
      ensures Valid() && k <= |attempts| && Handled(old(View()).Charge(), reports, m, View())
      ensures envelope == xactHead
      ensures !encodable ==> outcome.Failed? && m == k == 0
      ensures encodable && k == |attempts| ==> outcome.Waiting? && m == PolledSending(attempts, k, |reports|)
      ensures encodable && k < |attempts| && !attempts[k].queueFull ==>
                outcome == if attempts[k].taken then Success else Failed
      ensures encodable && k < |attempts| && attempts[k].queueFull ==>
                || (outcome.Success? && attempts[k].taken)
                || (outcome.ShutDown? && attempts[k].poll.shutdown)
                || (outcome.Fatal? && exitOnError && m < |reports| && !reports[m].ok)
                || (outcome.Fatal? && attempts[k].poll.due && attempts[k].poll.sendFails && recvdLsn != 0)
      ensures encodable && k < |attempts| ==>
                AttemptEnds(attempts[k], reports, PolledSending(attempts, k, |reports|), m, outcome)
      ensures forall j :: 0 <= j < k ==> Retried(attempts[j])
      ensures AllDelivered(reports, 0, m, exitOnError)
    {
      ChargeEvent();
      HandledNone(View(), reports);
      envelope := xactHead;
      if !encodable {
        return Failed, envelope, 0, 0;
      }
      outcome, m, k := Produce(reports, attempts);
    }

    /** A keepalive raises the received position; the flush position follows it
        exactly on an empty buffer. A reply, if asked for, carries both. */
    method ParseKeepalive(walPos: Lsn, replyRequested: bool) returns (reply: Option<Status>)
      requires Valid()
      modifies this`recvdLsn, this`fsyncLsn
      ensures Valid() && View() == old(View()).Keepalive(walPos)
      ensures reply == if replyRequested then Some(Status(View().recvd, View().fsync)) else None
    {
      LengthAgrees();
      recvdLsn := Max(walPos, recvdLsn);
      if Empty() {
        fsyncLsn := Max(walPos, recvdLsn);
      }
      reply := if replyRequested then Some(Status(recvdLsn, fsyncLsn)) else None;
    }
  }
}
