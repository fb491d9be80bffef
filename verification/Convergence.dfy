/** What a consumer of the log-compacted topics sees after crashes and replays: a
    key ends up with the message an uninterrupted run would have left for it,
    unless its newest event was lost on the way. Under the exit policy, for a table
    that stays active, no event is. */
module Convergence {
  import opened Common
  import opened Ring
  import opened Protocol
  import opened Invariant
  import opened Preservation
  import opened Guarantees

  // A key of one table's topic.
  datatype TopicKey = TopicKey(relid: Oid, key: Bytes)

  ghost predicate Matches(log: Log, k: TopicKey, e: Event) {
    && InLog(log, e) && !SnapshotAt(log, e.txn)
    && RowOf(log, e).relid == k.relid && RowOf(log, e).key == Some(k.key)
  }

  // The message that log compaction keeps for a key.
  ghost function Latest(log: Log, k: TopicKey, topic: seq<Event>): Option<Event> {
    if topic == [] then None
    else if Matches(log, k, topic[|topic| - 1]) then Some(topic[|topic| - 1])
    else Latest(log, k, topic[..|topic| - 1])
  }

  // The last event for the key in the whole log.
  ghost predicate Newest(log: Log, k: TopicKey, m: Event) {
    Matches(log, k, m) && forall e :: Matches(log, k, e) ==> !Before(m, e)
  }

  ghost predicate IsNewest(log: Log, k: TopicKey, o: Option<Event>) {
    match o
    case None => forall e :: !Matches(log, k, e)
    case Some(m) => Newest(log, k, m)
  }

  lemma {:induction false} LatestMatches(log: Log, k: TopicKey, topic: seq<Event>)
    ensures Latest(log, k, topic).Some? ==> Matches(log, k, Latest(log, k, topic).value)
    decreases |topic|
  {
    if topic == [] {
    } else {
      LatestMatches(log, k, topic[..|topic| - 1]);
    }
  }

  lemma LatestAppend(log: Log, k: TopicKey, topic: seq<Event>, e: Event)
    ensures Latest(log, k, topic + [e]) == if Matches(log, k, e) then Some(e) else Latest(log, k, topic)
  {
  }

  // ---- an uninterrupted run ----

  // Every row event of the log, in order.
  ghost function Uninterrupted(log: Log, n: nat): seq<Event>
    requires n <= |log|
  {
    if n == 0 then []
    else Uninterrupted(log, n - 1) + seq(|log[n - 1].rows|, r requires 0 <= r => Event(n - 1, r))
  }

  // The newest event for the key before row `r` of transaction `n`.
  ghost predicate IsNewestBefore(log: Log, k: TopicKey, n: nat, r: nat, o: Option<Event>) {
    match o
    case None => forall e :: Matches(log, k, e) ==> !Before(e, Event(n, r))
    case Some(m) =>
      && Matches(log, k, m) && Before(m, Event(n, r))
      && forall e :: Matches(log, k, e) && Before(e, Event(n, r)) ==> !Before(m, e)
  }

  lemma {:induction false} LatestOfRows(log: Log, k: TopicKey, topic: seq<Event>, n: nat, r: nat)
    requires n < |log| && r <= |log[n].rows|
    requires IsNewestBefore(log, k, n, 0, Latest(log, k, topic))
    ensures IsNewestBefore(log, k, n, r, Latest(log, k, topic + seq(r, i requires 0 <= i => Event(n, i))))
    decreases r
  {
    var rows := seq(r, i requires 0 <= i => Event(n, i));
    if r == 0 {
      assert topic + rows == topic;
    } else {
      var before := seq(r - 1, i requires 0 <= i => Event(n, i));
      LatestOfRows(log, k, topic, n, r - 1);
      assert topic + rows == (topic + before) + [Event(n, r - 1)];
      LatestAppend(log, k, topic + before, Event(n, r - 1));
      assert forall e :: Before(e, Event(n, r)) <==> Before(e, Event(n, r - 1)) || e == Event(n, r - 1);
    }
  }

  lemma {:induction false} LatestUninterrupted(log: Log, k: TopicKey, n: nat)
    requires n <= |log|
    ensures IsNewestBefore(log, k, n, 0, Latest(log, k, Uninterrupted(log, n)))
    decreases n
  {
    if n == 0 {
    } else {
      var topic := Uninterrupted(log, n - 1);
      LatestUninterrupted(log, k, n - 1);
      LatestOfRows(log, k, topic, n - 1, |log[n - 1].rows|);
      assert forall e :: Matches(log, k, e) ==>
          (Before(e, Event(n, 0)) <==> Before(e, Event(n - 1, |log[n - 1].rows|)));
    }
  }

  lemma UninterruptedIsNewest(log: Log, k: TopicKey)
    ensures IsNewest(log, k, Latest(log, k, Uninterrupted(log, |log|)))
  {
    LatestUninterrupted(log, k, |log|);
    assert forall e :: Matches(log, k, e) ==> Before(e, Event(|log|, 0));
  }

  // ---- the invariant ----

  // Neither skipped nor dropped with a logged error.
  ghost predicate Kept(s: Sys, e: Event) {
    e !in s.skipped && e !in s.dropped
  }

  // A message waiting for Kafka is newer than what this process has stored for
  // its key.
  ghost predicate InOrder(s: Sys, c: Client, k: TopicKey) {
    && (forall e :: e in c.appended ==> Seen(s.log, c, e))
    && c.appended !! c.failed
    && (forall d, e :: Overtaken(s, c, k, d, e) ==> d in c.appended)
  }

  ghost predicate Overtaken(s: Sys, c: Client, k: TopicKey, d: Event, e: Event) {
    d in c.envelopes && e in c.appended && Matches(s.log, k, d) && Matches(s.log, k, e) && Before(d, e)
  }

  // The topic's latest message is the newest one this process has stored.
  ghost predicate TopicCurrent(s: Sys, c: Client, k: TopicKey) {
    forall e :: e in c.appended && Matches(s.log, k, e) ==>
      && Latest(s.log, k, s.topic).Some?
      && var m := Latest(s.log, k, s.topic).value;
         m in c.appended && Matches(s.log, k, m) && !Before(m, e)
  }

  ghost predicate OnItsWay(s: Sys, c: Client, k: TopicKey) {
    forall e :: Seen(s.log, c, e) && Matches(s.log, k, e) && Kept(s, e) ==>
      e in c.appended || e in c.envelopes || e in c.failed
  }

  // If the newest event is not to be sent again, the topic has it.
  ghost predicate NothingToResend(s: Sys, c: Client, k: TopicKey) {
    forall m :: Newest(s.log, k, m) && Kept(s, m) && m.txn < c.first ==> Latest(s.log, k, s.topic) == Some(m)
  }

  // If the server holds a position past the newest event, the topic has it.
  ghost predicate FlushedCurrent(s: Sys, k: TopicKey) {
    forall m :: Newest(s.log, k, m) && Kept(s, m) && s.log[m.txn].commit <= s.flushed ==>
      Latest(s.log, k, s.topic) == Some(m)
  }

  ghost predicate ProcessConverging(s: Sys, c: Client, k: TopicKey) {
    InOrder(s, c, k) && TopicCurrent(s, c, k) && OnItsWay(s, c, k) && NothingToResend(s, c, k)
  }

  ghost predicate Converging(s: Sys, k: TopicKey) {
    if s.proc.Some? then ProcessConverging(s, s.proc.value, k) else FlushedCurrent(s, k)
  }

  // ---- its preservation ----

  // Once the process has stored the newest event, the topic is up to date.
  lemma StoredNewest(s: Sys, c: Client, k: TopicKey, m: Event)
    requires TopicCurrent(s, c, k) && Newest(s.log, k, m) && m in c.appended
    ensures Latest(s.log, k, s.topic) == Some(m)
  {
  }

  // Ending a process.
  lemma EndConverges(s: Sys, c: Client, s': Sys, k: TopicKey)
    requires Inv(s) && s.proc == Some(c) && Converging(s, k)
    requires s' == s.(proc := None, slotExists := s'.slotExists, abandoned := s'.abandoned)
    ensures Converging(s', k)
  {
    forall m | Newest(s.log, k, m) && Kept(s, m) && s.log[m.txn].commit <= s.flushed
      ensures Latest(s.log, k, s.topic) == Some(m)
    {
      if m.txn < c.first {
      } else {
        assert m.txn < Done(c) && m.txn < c.next;
        assert Seen(s.log, c, m);
        assert m in c.envelopes || m in c.failed ==> m in c.envelopes.Keys + c.failed;
        StoredNewest(s, c, k, m);
      }
    }
  }

  lemma AppendConverges(s: Sys, c: Client, e: Event, s': Sys, k: TopicKey)
    requires ClientInv(s, c) && s.proc == Some(c) && Converging(s, k)
    requires CanAppend(s, c, e) && s' == ClientApply(s, c, Append(e))
    ensures Converging(s', k)
  {
    var c' := s'.proc.value;
    assert e in c.envelopes.Keys + c.failed && Seen(s.log, c, e);
    AppendInOrder(s, c, e, s', c', k);
    AppendTopic(s, c, e, s', c', k);
  }

  lemma AppendTopic(s: Sys, c: Client, e: Event, s': Sys, c': Client, k: TopicKey)
    requires ProcessConverging(s, c, k)
    requires Seen(s.log, c, e) && e in c.envelopes && e !in c.appended
    requires s' == s.(topic := s.topic + [e], proc := s'.proc) && c' == c.(appended := c.appended + {e})
    ensures TopicCurrent(s', c', k) && NothingToResend(s', c', k) && OnItsWay(s', c', k)
  {
    LatestAppend(s.log, k, s.topic, e);
    forall x | x in c.appended && Matches(s.log, k, x) && Matches(s.log, k, e)
      ensures !Before(e, x)
    {
      assert Before(e, x) ==> Overtaken(s, c, k, e, x);
    }
  }

  lemma AppendInOrder(s: Sys, c: Client, e: Event, s': Sys, c': Client, k: TopicKey)
    requires InOrder(s, c, k) && CanAppend(s, c, e) && Seen(s.log, c, e) && e !in c.failed
    requires s'.log == s.log && c' == c.(appended := c.appended + {e})
    ensures InOrder(s', c', k)
  {
    forall d, x | Overtaken(s', c', k, d, x)
      ensures d in c'.appended
    {
      if x == e {
        assert SameKey(s.log, d, e);
      } else {
        assert Overtaken(s, c, k, d, x);
      }
    }
  }

  // A step that leaves the topic alone. It may go on to one more row, which is
  // handed to Kafka, charged in vain, skipped or dropped; a report is about a
  // message in the topic or drops it.
  ghost predicate Quiet(s: Sys, c: Client, s': Sys, c': Client) {
    && s'.log == s.log && s'.topic == s.topic
    && s.skipped <= s'.skipped && s.dropped <= s'.dropped
    && c'.first == c.first && c'.appended == c.appended && c.failed <= c'.failed <= c.failed + {c.Current()}
    && (forall e :: Seen(s.log, c, e) ==> Seen(s.log, c', e))
    && (forall e :: Seen(s.log, c', e) && !Seen(s.log, c, e) ==>
          && e == c.Current()
          && (e in c'.envelopes || e in c'.failed || e in s'.skipped || e in s'.dropped))
    && (forall e :: e in c.envelopes ==> e in c'.envelopes || e in c.appended || e in s'.dropped)
    && (forall e :: e in c'.envelopes ==> e in c.envelopes || e == c.Current())
  }

  lemma QuietConverges(s: Sys, c: Client, s': Sys, c': Client, k: TopicKey)
    requires Converging(s, k) && s.proc == Some(c) && s'.proc == Some(c') && Quiet(s, c, s', c')
    ensures Converging(s', k)
  {
    assert !Seen(s.log, c, c.Current());
    forall d, e | Overtaken(s', c', k, d, e)
      ensures d in c'.appended
    {
      assert Seen(s.log, c, e) ==> !Before(c.Current(), e);
      assert Overtaken(s, c, k, d, e);
    }
    assert InOrder(s', c', k);
  }

  lemma ReceivingIsQuiet(s: Sys, c: Client, step: Step)
    requires Shaped(s.log, c) && s.proc == Some(c) && ClientEnabled(s, c, step)
    requires step.Begin? || step.StartSend? || step.Commit?
    ensures var s' := ClientApply(s, c, step); s'.proc.Some? && Quiet(s, c, s', s'.proc.value)
  {
  }

  lemma PassingOverIsQuiet(s: Sys, c: Client, step: Step)
    requires Shaped(s.log, c) && s.proc == Some(c) && ClientEnabled(s, c, step)
    requires step.Skip? || step.Discard?
    ensures var s' := ClientApply(s, c, step); s'.proc.Some? && Quiet(s, c, s', s'.proc.value)
  {
  }

  lemma SendingIsQuiet(s: Sys, c: Client, step: Step)
    requires Shaped(s.log, c) && s.proc == Some(c) && ClientEnabled(s, c, step)
    requires step.Enqueue? || step.SendFails?
    ensures var s' := ClientApply(s, c, step); s'.proc.Some? && Quiet(s, c, s', s'.proc.value)
  {
  }

  lemma OtherIsQuiet(s: Sys, c: Client, step: Step)
    requires Shaped(s.log, c) && s.proc == Some(c) && ClientEnabled(s, c, step)
    requires step.FrameEnd? || step.Keepalive? || step.Reload? || step.Status?
    ensures var s' := ClientApply(s, c, step); s'.proc.Some? && Quiet(s, c, s', s'.proc.value)
  {
  }

  lemma ReportIsQuiet(s: Sys, c: Client, e: Event, ok: bool)
    requires Shaped(s.log, c) && s.proc == Some(c) && CanDeliver(s, c, e, ok)
    ensures var s' := ClientApply(s, c, Deliver(e, ok)); s'.proc.Some? && Quiet(s, c, s', s'.proc.value)
  {
  }

  lemma StepIsQuiet(s: Sys, c: Client, step: Step)
    requires Shaped(s.log, c) && s.proc == Some(c) && ClientEnabled(s, c, step)
    requires !step.Append? && !step.Exit? && !step.Kill?
    ensures var s' := ClientApply(s, c, step); s'.proc.Some? && Quiet(s, c, s', s'.proc.value)
  {
    if step.Begin? || step.StartSend? || step.Commit? {
      ReceivingIsQuiet(s, c, step);
    } else if step.Skip? || step.Discard? {
      PassingOverIsQuiet(s, c, step);
    } else if step.Enqueue? || step.SendFails? {
      SendingIsQuiet(s, c, step);
    } else if step.Deliver? {
      ReportIsQuiet(s, c, step.event, step.ok);
    } else {
      OtherIsQuiet(s, c, step);
    }
  }

  lemma ClientStepConverges(s: Sys, c: Client, step: Step, k: TopicKey)
    requires Inv(s) && s.proc == Some(c) && ClientEnabled(s, c, step) && Converging(s, k)
    ensures Converging(ClientApply(s, c, step), k)
  {
    var s' := ClientApply(s, c, step);
    if step.Append? {
      AppendConverges(s, c, step.event, s', k);
    } else if step.Exit? || step.Kill? {
      EndConverges(s, c, s', k);
    } else {
      StepIsQuiet(s, c, step);
      QuietConverges(s, c, s', s'.proc.value, k);
    }
  }

  lemma RestartConverges(s: Sys, first: nat, k: TopicKey)
    requires CanRestart(s, first) && Converging(s, k)
    ensures Converging(s.(proc := Some(FreshProcess(first))), k)
  {
  }

  lemma InitConverges(s: Sys, k: TopicKey)
    requires Init(s)
    ensures Converging(s, k)
  {
  }

  lemma StepConverges(s: Sys, step: Step, s': Sys, k: TopicKey)
    requires Inv(s) && StepTaken(s, step, s') && Converging(s, k)
    ensures Converging(s', k)
  {
    if s.proc.Some? {
      ClientStepConverges(s, s.proc.value, step, k);
    } else {
      match step {
        case Forget(f) =>
        case Restart(first) => RestartConverges(s, first, k);
        case Recreate(log, start) => InitConverges(NewSlot(log, start, s.policy), k);
      }
    }
  }

  lemma {:induction false} RunConverges(states: seq<Sys>, steps: seq<Step>, n: nat, k: TopicKey)
    requires IsRun(states, steps) && n < |states|
    ensures Converging(states[n], k)
    decreases n
  {
    if n == 0 {
      InitConverges(states[0], k);
    } else {
      RunConverges(states, steps, n - 1, k);
      RunInv(states, steps, n - 1);
      assert StepTaken(states[n - 1], steps[n - 1], states[n - 1 + 1]);
      StepConverges(states[n - 1], steps[n - 1], states[n - 1 + 1], k);
    }
  }

  // ---- the theorems ----

  // A process has received the whole log, and Kafka has reported on everything
  // it sent.
  ghost predicate CaughtUp(s: Sys) {
    s.proc.Some? && s.proc.value.next == |s.log| && s.proc.value.envelopes == map[]
  }

  // The key's newest event was not skipped, not dropped, and did not fail locally
  // in the process that is running.
  ghost predicate NewestKept(s: Sys, k: TopicKey) {
    forall m :: Newest(s.log, k, m) ==> Kept(s, m) && (s.proc.Some? ==> m !in s.proc.value.failed)
  }

  /** For every run, under either policy, with any number of crashes, replays,
      failed sends and failed deliveries: once some process has received the whole
      log and Kafka has reported on everything it sent, each key whose newest
      event was kept has in the compacted topic the same message as after a single
      uninterrupted pass over the log. What became of its older events does not
      matter. */
  lemma ReplayConverges(states: seq<Sys>, steps: seq<Step>, n: nat, k: TopicKey)
    requires IsRun(states, steps) && n < |states|
    requires CaughtUp(states[n]) && NewestKept(states[n], k)
    ensures Latest(states[n].log, k, states[n].topic)
            == Latest(states[n].log, k, Uninterrupted(states[n].log, |states[n].log|))
  {
    var s, c := states[n], states[n].proc.value;
    RunInv(states, steps, n);
    RunConverges(states, steps, n, k);
    UninterruptedIsNewest(s.log, k);
    var o := Latest(s.log, k, Uninterrupted(s.log, |s.log|));
    if o.None? {
      LatestMatches(s.log, k, s.topic);
    } else if o.value.txn >= c.first {
      assert Seen(s.log, c, o.value);
      StoredNewest(s, c, k, o.value);
    }
  }

  /** The condition is exact for what a process has stored itself: once it has
      stored some message of a key whose newest event it has to send, the topic
      has the newest event if and only if the process has stored that one. A send
      that failed locally therefore leaves the key out of date. */
  lemma ConvergedIffStored(states: seq<Sys>, steps: seq<Step>, n: nat, k: TopicKey, m: Event, e: Event)
    requires IsRun(states, steps) && n < |states| && states[n].proc.Some?
    requires Newest(states[n].log, k, m)
    requires Matches(states[n].log, k, e) && e in states[n].proc.value.appended
    ensures Latest(states[n].log, k, states[n].topic) == Some(m) <==> m in states[n].proc.value.appended
    ensures m in states[n].proc.value.failed ==> Latest(states[n].log, k, states[n].topic) != Some(m)
  {
    RunConverges(states, steps, n, k);
    if m in states[n].proc.value.appended {
      StoredNewest(states[n], states[n].proc.value, k, m);
    }
  }

  /** Under the exit policy every event of a table that stays active is kept. */
  lemma ExitPolicyKeeps(states: seq<Sys>, steps: seq<Step>, n: nat, k: TopicKey)
    requires IsRun(states, steps) && n < |states| && states[n].policy == ExitOnError
    requires AlwaysActive(states, k.relid)
    ensures NewestKept(states[n], k)
  {
    RunInv(states, steps, n);
    ActiveNotSkipped(states, steps, n, k.relid);
    forall m | Newest(states[n].log, k, m)
      ensures m !in states[n].skipped
    {
      assert !WronglySkipped(states[n], k.relid, m);
    }
  }
}
