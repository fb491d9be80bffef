/** From the table to the consumer: what a run of the whole pipeline, with any
    number of crashes and replays, leaves in a table's compacted topic. */
module EndToEnd {
  import opened Common
  import opened Protocol
  import opened Guarantees
  import opened Convergence
  import opened Wire
  import T = Translation

  // The records of one table among some events of the log. Snapshot rows never
  // reach Kafka.
  ghost function TableRecords(log: Log, relid: Oid, events: seq<Event>): seq<Record<Bytes>> {
    if events == [] then []
    else
      var e := events[|events| - 1];
      TableRecords(log, relid, events[..|events| - 1])
      + (if InLog(log, e) && !SnapshotAt(log, e.txn) && RowOf(log, e).relid == relid
         then [Record(RowOf(log, e).key, RowOf(log, e).value)] else [])
  }

  // A row message as the protocol sees it.
  ghost function RowFor<S>(m: Message<S, Bytes>): Row
    requires !m.TableSchema?
  {
    Row(m.relid, m.key, if m.Delete? then None else Some(m.newRow))
  }

  /** The protocol hands a row to Kafka exactly when the row callbacks make a record of
      its message, and the record is the row's key and value. */
  lemma SentAsRecorded<S>(m: Message<S, Bytes>, active: set<Oid>)
    requires !m.TableSchema?
    ensures Sendable(RowFor(m), active) <==> m.relid in active && RecordsOf(m) != []
    ensures RecordsOf(m) != [] ==> RecordsOf(m) == [Record(RowFor(m).key, RowFor(m).value)]
  {
  }

  // What a consumer reads for one key.
  ghost function ReadKey(m: map<Bytes, Bytes>, key: Bytes): Option<Bytes> {
    if key in m then Some(m[key]) else None
  }

  ghost function LatestValue(log: Log, k: TopicKey, events: seq<Event>): Option<Bytes> {
    var e := Latest(log, k, events);
    if e.Some? && InLog(log, e.value) then RowOf(log, e.value).value else None
  }

  lemma {:induction false} CompactReadsLatest(log: Log, k: TopicKey, events: seq<Event>)
    ensures ReadKey(Compact(TableRecords(log, k.relid, events)), k.key) == LatestValue(log, k, events)
    decreases |events|
  {
    if events == [] {
    } else {
      var e, rest := events[|events| - 1], events[..|events| - 1];
      CompactReadsLatest(log, k, rest);
      var before := TableRecords(log, k.relid, rest);
      if InLog(log, e) && !SnapshotAt(log, e.txn) && RowOf(log, e).relid == k.relid {
        CompactSnoc(before, Record(RowOf(log, e).key, RowOf(log, e).value));
      } else {
        assert before + [] == before;
      }
    }
  }

  lemma MapsEqual(a: map<Bytes, Bytes>, b: map<Bytes, Bytes>)
    requires forall key :: ReadKey(a, key) == ReadKey(b, key)
    ensures a == b
  {
    assert forall key :: key in a <==> ReadKey(a, key).Some?;
    assert forall key :: key in b <==> ReadKey(b, key).Some?;
    assert forall key :: key in a ==> a[key] == ReadKey(a, key).value;
    assert forall key :: key in b ==> b[key] == ReadKey(b, key).value;
  }

  // For every key of the table, the newest event was kept.
  ghost predicate TableKept(s: Sys, relid: Oid) {
    forall key: Bytes :: NewestKept(s, TopicKey(relid, key))
  }

  /** Once a process has received the whole log and had everything it sent
      reported, the compacted topic of a table whose newest events were kept is
      the one an uninterrupted run leaves. */
  lemma TopicsConverge(states: seq<Sys>, steps: seq<Step>, n: nat, relid: Oid)
    requires IsRun(states, steps) && n < |states|
    requires CaughtUp(states[n]) && TableKept(states[n], relid)
    ensures var s := states[n];
            Compact(TableRecords(s.log, relid, s.topic))
            == Compact(TableRecords(s.log, relid, Uninterrupted(s.log, |s.log|)))
  {
    var s := states[n];
    var all := Uninterrupted(s.log, |s.log|);
    forall key
      ensures ReadKey(Compact(TableRecords(s.log, relid, s.topic)), key)
              == ReadKey(Compact(TableRecords(s.log, relid, all)), key)
    {
      var k := TopicKey(relid, key);
      CompactReadsLatest(s.log, k, s.topic);
      CompactReadsLatest(s.log, k, all);
      ReplayConverges(states, steps, n, k);
    }
    MapsEqual(Compact(TableRecords(s.log, relid, s.topic)), Compact(TableRecords(s.log, relid, all)));
  }

  // The table's rows in the log are the records of a valid sequence of changes to
  // a table that was empty when the slot was created. The schemas may change on the
  // way, but each change finds the old record of the row it changes.
  ghost predicate LogsTable<S, K(!new), R>(log: Log, relid: Oid, changes: seq<T.Change<K, R, Bytes>>) {
    && TableRecords(log, relid, Uninterrupted(log, |log|)) == T.Produced<S, K, R, Bytes>(relid, changes)
    && T.Injective(changes) && T.ValidFrom(map[], changes) && T.EachFindsOld(changes)
  }

  /** If in addition the log holds the changes of a table, then the compacted topic
      holds exactly the rows of that table, each encoded as when it was last
      written. */
  lemma TopicIsTheTable<S, K(!new), R>(states: seq<Sys>, steps: seq<Step>, n: nat, relid: Oid,
                                       changes: seq<T.Change<K, R, Bytes>>)
    requires IsRun(states, steps) && n < |states|
    requires CaughtUp(states[n]) && TableKept(states[n], relid)
    requires LogsTable<S, K, R>(states[n].log, relid, changes)
    ensures T.Holds(changes, T.TableAfter(map[], changes), Compact(TableRecords(states[n].log, relid, states[n].topic)))
  {
    TopicsConverge(states, steps, n, relid);
    T.CompactedIsTable<S, K, R, Bytes>(relid, changes);
  }

  /** Under the exit policy this holds of every table that stays active. */
  lemma ExitPolicyTopicIsTheTable<S, K(!new), R>(states: seq<Sys>, steps: seq<Step>, n: nat, relid: Oid,
                                                 changes: seq<T.Change<K, R, Bytes>>)
    requires IsRun(states, steps) && n < |states| && states[n].policy == ExitOnError
    requires CaughtUp(states[n]) && AlwaysActive(states, relid)
    requires LogsTable<S, K, R>(states[n].log, relid, changes)
    ensures T.Holds(changes, T.TableAfter(map[], changes), Compact(TableRecords(states[n].log, relid, states[n].topic)))
  {
    forall key: Bytes
      ensures NewestKept(states[n], TopicKey(relid, key))
    {
      ExitPolicyKeeps(states, steps, n, TopicKey(relid, key));
    }
    TopicIsTheTable<S, K, R>(states, steps, n, relid, changes);
  }
}
