/** Inputs at which the code does not do what is promised of it: each one shows
    that the exact conditions proved elsewhere exclude something that happens. */
module Witnesses {
  import opened Common
  import opened Ring
  import opened Protocol
  import opened Invariant
  import opened Guarantees
  import opened SnapshotGuarantees
  import Progress
  import AvroName
  import Columns
  import SchemaCache
  import T = Translation

  const TABLE: Oid := 5

  const ONE_ROW := Row(TABLE, Some([]), Some([]))

  // ---- a send that fails before Kafka takes the message ----

  // The process that has loaded its table list, under the log policy, with one
  // transaction of one row to receive.
  ghost function Loaded(): Sys {
    var s := NewSlot([Txn(1, 2, [ONE_ROW])], 1, LogErrors);
    s.(proc := Some(FreshProcess(0).(active := {TABLE}, loaded := true)))
  }

  lemma LoadedReached()
    ensures Reached(Loaded())
  {
    var s := NewSlot([Txn(1, 2, [ONE_ROW])], 1, LogErrors);
    InitReached(s);
    StepReached(s, Reload({TABLE}));
  }

  lemma BegunReached() returns (s: Sys, c: Client)
    ensures Reached(s) && s.proc == Some(c) && c.ctx.Shape()
    ensures s.log == Loaded().log && s.policy == LogErrors
    ensures c.inTxn && !c.sending && c.next == 0 && c.row == 0 && c.active == {TABLE} && c.failed == {}
  {
    LoadedReached();
    StepReached(Loaded(), Begin(0));
    s := Apply(Loaded(), Begin(0));
    c := s.proc.value;
  }

  /** A reachable state with a send that failed locally. Nothing the process does
      while it runs then gets everything acknowledged. */
  lemma SendsCanFail() returns (s: Sys, c: Client)
    ensures Reached(s) && s.proc == Some(c) && c.failed == {Event(0, 0)}
    ensures !exists steps, t :: Progress.FlushesBy(s, steps, t)
  {
    var s0, c0 := BegunReached();
    StepReached(s0, StartSend);
    var s1 := Apply(s0, StartSend);
    StepReached(s1, SendFails);
    s := Apply(s1, SendFails);
    c := s.proc.value;
    Progress.CanFlushIff(s);
  }

  // ---- an exit with status zero during the snapshot ----

  /** A slot created with a snapshot of one row, and a shutdown by signal before the
      row is handled. */
  lemma SnapshotsCanBeOrphaned() returns (s: Sys)
    ensures Reached(s) && Orphaned(s) && !Accounted(s, Event(0, 0))
  {
    var s0 := NewSlot([Txn(0, 1, [ONE_ROW])], 1, ExitOnError);
    InitReached(s0);
    StepReached(s0, Exit(0, true));
    s := Apply(s0, Exit(0, true));
    assert !Accounted(s, Event(0, 0));
    assert !Handled(s, 0);
  }

  /** A slot created with a snapshot of one row, which is received to its end: the row
      is skipped, and the snapshot is over. */
  lemma SnapshotsAreSkipped() returns (s: Sys)
    ensures Reached(s) && SnapshotPromised(s) && s.skipped == {Event(0, 0)} && s.topic == []
  {
    var s0 := NewSlot([Txn(0, 1, [ONE_ROW])], 1, ExitOnError);
    InitReached(s0);
    StepReached(s0, Skip);
    var s1 := Apply(s0, Skip);
    var c1 := s1.proc.value;
    CheckpointDuringSnapshot(c1.ctx.Committed(1));
    StepReached(s1, Protocol.Commit);
    s := Apply(s1, Protocol.Commit);
  }

  // ---- names and columns ----

  /** The namespace `a.1` is passed through, and is not a sequence of names. */
  lemma NamespaceCanBeInvalid()
    ensures !AvroName.ValidNamespace(AvroName.Escape([0x61, 0x2E, 0x31], true), true)
  {
    var raw: Bytes := [0x61, 0x2E, 0x31];
    assert AvroName.BadDot(raw, 1);
    AvroName.NamespaceValidIff(raw);
  }

  /** A name of one space takes four bytes, which leave no room for a terminator. */
  lemma NameCanFillBuffer()
    ensures |AvroName.Escape([0x20], false)| == 4
  {
    AvroName.RoomForTerminator([0x20], false);
    AvroName.EscapeSize([0x20], false, 0);
  }

  /** A table whose only column was dropped gets a record without any field, not
      even the placeholder. */
  lemma DroppedTableHasNoField(prefix: Bytes, name: Bytes, nsName: Bytes, typid: Oid)
    ensures var s := SchemaCache.SchemaFor(prefix, name, nsName, [Columns.Attr([0x61], typid, -1, true)]);
            s.fields == [] && !s.dummy
  {
    Columns.LiveEmpty([Columns.Attr([0x61], typid, -1, true)]);
  }

  // ---- a change of the key's schema ----

  function EvenKeys(): T.Codec<int, int, int> {
    T.Codec((x: int) => 2 * x, (x: int) => x)
  }

  function OddKeys(): T.Codec<int, int, int> {
    T.Codec((x: int) => 2 * x + 1, (x: int) => x)
  }

  // A row is inserted under one key encoding and deleted, old tuple and all, under
  // another.
  function KeySchemaChange(): seq<T.Change<int, int, int>> {
    [T.Change(T.InsertOp(T.Tuple(0, 0)), EvenKeys()),
     T.Change(T.DeleteOp(0, Some(T.Tuple(0, 0))), OddKeys())]
  }

  /** The row's record stays in the topic. */
  lemma KeySchemaChangeLeavesRecord<S>(relid: Oid)
    ensures var changes := KeySchemaChange();
            && T.Injective(changes) && T.ValidFrom(map[], changes)
            && (forall i :: 0 <= i < |changes| ==> T.CarriesOld(changes[i].op))
            && !T.AgreesThroughout<S, int, int, int>(relid, map[], map[], changes)
  {
    var changes := KeySchemaChange();
    var insert, delete := changes[0], changes[1];
    assert changes[1..] == [delete] && [delete][1..] == [];
    var none: map<int, T.Image<int, int>> := map[];
    assert T.Rows(none) == map[];
    assert T.ImageAfter(none, insert)[0].key == 0;
    assert !T.FindsOld(T.ImageAfter(none, insert), delete);
    T.TopicIsTable<S, int, int, int>(relid, none, map[], changes);
  }
}
