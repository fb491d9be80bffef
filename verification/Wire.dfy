/** The messages of a frame, and what each end does with a row change: the
    plugin's translation into messages (ext/protocol_server.c) and the client's
    translation of messages into Kafka records (kafka/bottledwater.c).

    `B` is whatever stands for encoded bytes. */
module Wire {
  import opened Common

  datatype Message<S, B> =
    | TableSchema(relid: Oid, keySchema: Option<S>, rowSchema: S)
    | Insert(relid: Oid, key: Option<B>, newRow: B)
    | Update(relid: Oid, key: Option<B>, oldRow: Option<B>, newRow: B)
    | Delete(relid: Oid, key: Option<B>, oldRow: Option<B>)

  // What is produced to the table's topic; no value marks a deletion.
  datatype Record<B> = Record(key: Option<B>, value: Option<B>)

  // ---- the plugin ----

  // If the key changed, the update is turned into a delete and an insert.
  function UpdateMessages<S, B(==)>(relid: Oid, oldKey: Option<B>, oldRow: Option<B>,
                                    newKey: Option<B>, newRow: B): seq<Message<S, B>>
  {
    if oldKey.Some? && oldKey != newKey
    then [Delete(relid, oldKey, oldRow), Insert(relid, newKey, newRow)]
    else [Update(relid, newKey, oldRow, newRow)]
  }

  // ---- the client ----

  function RecordsOf<S, B>(m: Message<S, B>): seq<Record<B>> {
    match m
    case TableSchema(_, _, _) => []
    case Insert(_, key, row) => [Record(key, Some(row))]
    case Update(_, key, _, row) => [Record(key, Some(row))]
    case Delete(_, key, _) => if key.Some? then [Record(key, None)] else []
  }

  function Records<S, B>(frame: seq<Message<S, B>>): seq<Record<B>> {
    if frame == [] then [] else RecordsOf(frame[0]) + Records(frame[1..])
  }

  // What a frame asks to be stored, in order: each new row, with its key if it has one.
  function NewRows<S, B>(frame: seq<Message<S, B>>): seq<(Option<B>, B)> {
    if frame == [] then []
    else (if frame[0].Insert? || frame[0].Update? then [(frame[0].key, frame[0].newRow)] else []) + NewRows(frame[1..])
  }

  // What a frame asks to be removed, in order.
  function RemovedKeys<S, B>(frame: seq<Message<S, B>>): seq<Option<B>> {
    if frame == [] then []
    else (if frame[0].Delete? && frame[0].key.Some? then [frame[0].key] else []) + RemovedKeys(frame[1..])
  }

  function Stores<B>(records: seq<Record<B>>): seq<(Option<B>, B)> {
    if records == [] then []
    else (if records[0].value.Some? then [(records[0].key, records[0].value.value)] else []) + Stores(records[1..])
  }

  function Removals<B>(records: seq<Record<B>>): seq<Option<B>> {
    if records == [] then [] else (if records[0].value.None? then [records[0].key] else []) + Removals(records[1..])
  }

  lemma StoresCons<B>(r: Record<B>, rest: seq<Record<B>>)
    ensures Stores([r] + rest) == (if r.value.Some? then [(r.key, r.value.value)] else []) + Stores(rest)
    ensures Removals([r] + rest) == (if r.value.None? then [r.key] else []) + Removals(rest)
  {
    assert ([r] + rest)[1..] == rest;
  }

  /** Every new row is sent, in order, whether it has a key or not; a deletion is sent
      exactly if it has a key; and nothing else is sent. */
  lemma {:induction false} AllRowsSent<S, B>(frame: seq<Message<S, B>>)
    ensures Stores(Records(frame)) == NewRows(frame)
    ensures Removals(Records(frame)) == RemovedKeys(frame)
    decreases |frame|
  {
    if frame == [] {
    } else {
      AllRowsSent(frame[1..]);
      var rest := Records(frame[1..]);
      if RecordsOf(frame[0]) == [] {
        assert [] + rest == rest;
      } else {
        StoresCons(RecordsOf(frame[0])[0], rest);
      }
    }
  }

  lemma OneMessage<S, B>(m: Message<S, B>)
    ensures NewRows([m]) == if m.Insert? || m.Update? then [(m.key, m.newRow)] else []
    ensures RemovedKeys([m]) == if m.Delete? && m.key.Some? then [m.key] else []
  {
    var none: seq<Message<S, B>> := [];
    assert [m][1..] == none;
    assert NewRows(none) == [] && RemovedKeys(none) == [];
  }

  /** An update that changes the key removes the old key and stores the new row under
      the new one; any other stores the new row; the old row is passed on. */
  lemma UpdateSent<S, B>(relid: Oid, oldKey: Option<B>, oldRow: Option<B>, newKey: Option<B>, newRow: B)
    ensures var frame := UpdateMessages<S, B>(relid, oldKey, oldRow, newKey, newRow);
            && NewRows(frame) == [(newKey, newRow)]
            && RemovedKeys(frame) == (if oldKey.Some? && oldKey != newKey then [oldKey] else [])
            && (forall i :: 0 <= i < |frame| ==> frame[i].relid == relid && !frame[i].TableSchema?)
            && !frame[0].Insert? && frame[0].oldRow == oldRow
  {
    var frame := UpdateMessages<S, B>(relid, oldKey, oldRow, newKey, newRow);
    if |frame| == 2 {
      assert frame[1..] == [frame[1]];
      OneMessage(frame[1]);
    } else {
      assert frame == [frame[0]];
      OneMessage(frame[0]);
    }
  }

  // ---- the consumer ----

  // The contents of a log-compacted topic. Records without a key are not subject
  // to compaction.
  function Compact<B>(records: seq<Record<B>>): map<B, B> {
    if records == [] then map[] else Applied(Compact(records[..|records| - 1]), records[|records| - 1])
  }

  function Applied<B>(m: map<B, B>, r: Record<B>): map<B, B> {
    match r
    case Record(None, _) => m
    case Record(Some(k), Some(v)) => m[k := v]
    case Record(Some(k), None) => m - {k}
  }

  lemma CompactSnoc<B>(records: seq<Record<B>>, r: Record<B>)
    ensures Compact(records + [r]) == Applied(Compact(records), r)
  {
  }
}
