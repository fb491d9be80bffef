/** Server and client agree on schemas: whenever the client decodes a row, it does
    so with the schemas the row was encoded with. */
module SchemaAgreement {
  import opened Common
  import opened Columns
  import opened SchemaCache
  import opened Wire
  import opened FrameReader
  import opened ProtocolServer

  // A row message of a table whose payloads were encoded with the given schemas.
  ghost predicate EncodedWith<D>(relid: Oid, s: Schemas, m: Message<Schema, Payload<D>>) {
    && !m.TableSchema? && m.relid == relid
    && (m.key.Some? ==> Some(m.key.value.schema) == s.key)
    && (m.Insert? || m.Update? ==> m.newRow.schema == s.row)
    && (m.Update? || m.Delete? ==> m.oldRow.Some? ==> m.oldRow.value.schema == s.row)
  }

  // What the plugin appends for a change is encoded with the relation's schemas.
  lemma PluginEncodesWith<D>(s: Schemas, rel: Relation, indkey: seq<nat>, oldTuple: Option<seq<Option<D>>>,
                             keep: seq<bool>, desc: TupleDesc, newTuple: seq<Option<D>>,
                             oldKey: Option<Payload<D>>, oldRow: Option<Payload<D>>,
                             newKey: Option<Payload<D>>, newRow: Payload<D>)
    requires IndexedBy(rel, indkey) && TupleOf(rel, keep, desc, newTuple)
    requires oldTuple.Some? ==> |oldTuple.value| == |rel.desc|
    requires IsOld(s, rel, oldTuple, indkey, oldKey, oldRow)
    requires IsKey(s, rel, keep, newTuple, indkey, newKey) && IsRow(s, desc, newTuple, newRow)
    ensures EncodedWith(rel.relid, s, Insert(rel.relid, newKey, newRow))
    ensures EncodedWith(rel.relid, s, Delete(rel.relid, oldKey, oldRow))
    ensures forall m :: m in UpdateMessages<Schema, Payload<D>>(rel.relid, oldKey, oldRow, newKey, newRow) ==>
              EncodedWith(rel.relid, s, m)
  {
  }

  // What the library must do: decode what was encoded with the same schemas. What
  // it makes of anything else does not matter.
  ghost predicate DecodesItsOwn<D(!new)>(decodes: Decoder<Schema, Payload<D>>) {
    forall entry: ListEntry<Schema>, m: Message<Schema, Payload<D>> ::
      EncodedWith(entry.relid, Schemas(entry.key, entry.row), m) ==> decodes(entry, m)
  }

  datatype Event<D> =
    | Change(rel: Relation, rows: seq<Message<Schema, Payload<D>>>)  // the frame of a row change; no rows if it
                                                                     // could not be converted
    | SwitchToStream                                                 // the plugin starts over with a fresh cache
    | Reconnect                                                      // both ends start over
    | SetActive(tables: seq<Oid>)

  datatype Ends = Ends(history: History, known: map<Oid, ListEntry<Schema>>, active: seq<Oid>)

  ghost predicate ValidEvent<D>(prefix: Bytes, e: Event<D>) {
    e.Change? ==> forall m :: m in e.rows ==> EncodedWith(e.rel.relid, FreshSchemas(prefix, e.rel), m)
  }

  // The frame of a change, all schema builds succeeding.
  ghost function FrameOf<D>(prefix: Bytes, h: History, rel: Relation, rows: Frame<D>): Frame<D> {
    SchemaMessages(Code(h, rel, true), rel.relid, FreshSchemas(prefix, rel)) + rows
  }

  ghost function After<D>(prefix: Bytes, decodes: Decoder<Schema, Payload<D>>, s: Ends, e: Event<D>): Ends {
    match e
    case Change(rel, rows) =>
      s.(history := Seen(s.history, rel, true),
         known := ReadFrame(s.known, s.active, decodes, FrameOf(prefix, s.history, rel, rows)).0)
    case SwitchToStream => s.(history := map[])
    case Reconnect => Ends(map[], map[], [])
    case SetActive(tables) => s.(active := tables)
  }

  ghost function Run<D>(prefix: Bytes, decodes: Decoder<Schema, Payload<D>>, events: seq<Event<D>>): Ends {
    if events == [] then Ends(map[], map[], [])
    else After(prefix, decodes, Run(prefix, decodes, events[..|events| - 1]), events[|events| - 1])
  }

  // The client knows every table the plugin's cache knows, with the same schemas.
  ghost predicate Agree(prefix: Bytes, s: Ends) {
    forall id :: id in s.history ==>
      && s.history[id].1
      && id in s.known
      && var f := FreshSchemas(prefix, s.history[id].0);
      && s.known[id] == ListEntry(id, f.key, f.row)
  }

  lemma {:induction false} RowsDoNotStore<D>(known: map<Oid, ListEntry<Schema>>, active: seq<Oid>,
                                             decodes: Decoder<Schema, Payload<D>>, rows: Frame<D>)
    requires forall m :: m in rows ==> !m.TableSchema?
    ensures ReadFrame(known, active, decodes, rows).0 == known
    ensures |ReadFrame(known, active, decodes, rows).1| == |rows|
    ensures forall i :: 0 <= i < |rows| ==>
              ReadFrame(known, active, decodes, rows).1[i] == Read(known, active, decodes, rows[i]).1
    decreases |rows|
  {
    if rows == [] {
    } else {
      RowsDoNotStore(known, active, decodes, rows[..|rows| - 1]);
      assert rows[|rows| - 1] in rows;
    }
  }

  lemma {:induction false} ReadFrameConcat<D>(known: map<Oid, ListEntry<Schema>>, active: seq<Oid>,
                                              decodes: Decoder<Schema, Payload<D>>, a: Frame<D>, b: Frame<D>)
    ensures var (m1, r1) := ReadFrame(known, active, decodes, a);
            var (m2, r2) := ReadFrame(m1, active, decodes, b);
            ReadFrame(known, active, decodes, a + b) == (m2, r1 + r2)
    decreases |b|
  {
    if b == [] {
      assert a + b == a;
      assert ReadFrame(known, active, decodes, a).1 + [] == ReadFrame(known, active, decodes, a).1;
    } else {
      var last := |b| - 1;
      ReadFrameConcat(known, active, decodes, a, b[..last]);
      assert a + b == (a + b[..last]) + [b[last]];
      ReadFrameSnoc(known, active, decodes, a + b[..last], b[last]);
      var (m1, r1) := ReadFrame(known, active, decodes, a);
      var (m2, r2) := ReadFrame(m1, active, decodes, b[..last]);
      var r := Read(m2, active, decodes, b[last]).1;
      assert (r1 + r2) + [r] == r1 + (r2 + [r]);
    }
  }

  // After reading the schema message, if there is one.
  ghost function KnownAfterSchemas(prefix: Bytes, s: Ends, rel: Relation): map<Oid, ListEntry<Schema>> {
    var f := FreshSchemas(prefix, rel);
    if Code(s.history, rel, true) == 0 then s.known else s.known[rel.relid := ListEntry(rel.relid, f.key, f.row)]
  }

  ghost predicate AllRead(readings: seq<Reading<Schema>>, r: Reading<Schema>) {
    forall i :: 0 <= i < |readings| ==> readings[i] == r
  }

  lemma ChangeReadings<D(!new)>(prefix: Bytes, decodes: Decoder<Schema, Payload<D>>, s: Ends, rel: Relation,
                                rows: Frame<D>)
    requires Agree(prefix, s) && DecodesItsOwn(decodes)
    requires forall m :: m in rows ==> EncodedWith(rel.relid, FreshSchemas(prefix, rel), m)
    ensures var f := FreshSchemas(prefix, rel);
            var (known, readings) := ReadFrame(s.known, s.active, decodes, FrameOf(prefix, s.history, rel, rows));
            && known == KnownAfterSchemas(prefix, s, rel)
            && rel.relid in known && known[rel.relid] == ListEntry(rel.relid, f.key, f.row)
            && |rows| <= |readings|
            && AllRead(readings[|readings| - |rows|..],
                       if rel.relid in s.active then Decoded(f.key, f.row) else Skipped)
  {
    var f := FreshSchemas(prefix, rel);
    var schemas: Frame<D> := SchemaMessages(Code(s.history, rel, true), rel.relid, f);
    if schemas != [] {
      assert schemas[..0] == [];
    }
    assert ReadFrame(s.known, s.active, decodes, schemas).0 == KnownAfterSchemas(prefix, s, rel);
    ReadFrameConcat(s.known, s.active, decodes, schemas, rows);
    RowsDoNotStore(KnownAfterSchemas(prefix, s, rel), s.active, decodes, rows);
    forall i | 0 <= i < |rows|
      ensures Read(KnownAfterSchemas(prefix, s, rel), s.active, decodes, rows[i]).1
              == if rel.relid in s.active then Decoded(f.key, f.row) else Skipped
    {
      assert rows[i] in rows;
    }
  }

  lemma EventKeepsAgreement<D(!new)>(prefix: Bytes, decodes: Decoder<Schema, Payload<D>>, s: Ends, e: Event<D>)
    requires Agree(prefix, s) && ValidEvent(prefix, e) && DecodesItsOwn(decodes)
    ensures Agree(prefix, After(prefix, decodes, s, e))
  {
    if e.Change? {
      ChangeReadings(prefix, decodes, s, e.rel, e.rows);
    }
  }

  lemma {:induction false} RunAgrees<D(!new)>(prefix: Bytes, decodes: Decoder<Schema, Payload<D>>,
                                              events: seq<Event<D>>)
    requires DecodesItsOwn(decodes)
    requires forall i :: 0 <= i < |events| ==> ValidEvent(prefix, events[i])
    ensures Agree(prefix, Run(prefix, decodes, events))
    decreases |events|
  {
    if events == [] {
    } else {
      RunAgrees(prefix, decodes, events[..|events| - 1]);
      EventKeepsAgreement(prefix, decodes, Run(prefix, decodes, events[..|events| - 1]), events[|events| - 1]);
    }
  }

  /** After any run of changes, schema changes, reloads of the active list, the
      switch from snapshot to stream and reconnections, the client decodes every
      row of an active table with exactly the key and row schemas the plugin
      encoded it with, and never meets a table it has no schemas for. */
  lemma DecodedAsEncoded<D(!new)>(prefix: Bytes, decodes: Decoder<Schema, Payload<D>>, events: seq<Event<D>>,
                            rel: Relation, rows: seq<Message<Schema, Payload<D>>>)
    requires DecodesItsOwn(decodes)
    requires forall i :: 0 <= i < |events| ==> ValidEvent(prefix, events[i])
    requires forall m :: m in rows ==> EncodedWith(rel.relid, FreshSchemas(prefix, rel), m)
    ensures var s := Run(prefix, decodes, events);
            var f := FreshSchemas(prefix, rel);
            var readings := ReadFrame(s.known, s.active, decodes, FrameOf(prefix, s.history, rel, rows)).1;
            && |rows| <= |readings|
            && AllRead(readings[|readings| - |rows|..],
                       if rel.relid in s.active then Decoded(f.key, f.row) else Skipped)
  {
    RunAgrees(prefix, decodes, events);
    ChangeReadings(prefix, decodes, Run(prefix, decodes, events), rel, rows);
  }
}
