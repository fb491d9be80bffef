/** The plugin's side of the wire protocol (ext/protocol_server.c): each row
    change appends messages to the current frame, preceded by the table's schemas
    whenever the cache reports them as new or changed. */
module ProtocolServer {
  import opened Common
  import opened Columns
  import opened SchemaCache
  import opened Wire

  // Encoded bytes: what was encoded, and the schema it was encoded with.
  datatype Payload<D> = Payload(schema: Schema, values: seq<FieldValue<D>>)

  type Frame<D> = seq<Message<Schema, Payload<D>>>

  datatype Outcome =
    | Added         // messages appended
    | Refused       // the schemas could not be built
    | Unusable      // the cache returned an entry left over from a failed build
    | Unconverted   // the tuple could not be converted

  // ---- what is appended ----

  ghost function SchemaMessages<D>(code: int, relid: Oid, s: Schemas): Frame<D> {
    if code == 0 then [] else [TableSchema(relid, s.key, s.row)]
  }

  /** Over any lookups, the schemas go out with a change if and only if the relation was
      not looked up before, or had another description then. */
  lemma SchemasSentIff<D>(requests: seq<Request>, rel: Relation, s: Schemas)
    ensures SchemaMessages<D>(Code(HistoryAfter(requests), rel, true), rel.relid, s)
            == if exists i: nat :: LastFor(requests, RelidOf, rel.relid, i) && requests[i].rel == rel
               then [] else [TableSchema(rel.relid, s.key, s.row)]
  {
    CacheTransparent(requests, rel, true);
    if Mentions(requests, rel.relid) {
      var i := LastForExists(requests, RelidOf, rel.relid);
    }
  }

  // The schema messages of `n` changes in a row to one relation.
  ghost function SchemasSent<D>(h: History, rel: Relation, s: Schemas, n: nat): Frame<D>
    decreases n
  {
    if n == 0 then []
    else SchemaMessages(Code(h, rel, true), rel.relid, s) + SchemasSent(Seen(h, rel, true), rel, s, n - 1)
  }

  /** A relation that does not change has its schemas sent exactly once. */
  lemma {:induction false} SentOnce<D>(h: History, rel: Relation, s: Schemas, n: nat)
    requires n > 0
    ensures SchemasSent<D>(h, rel, s, n)
            == if rel.relid in h && h[rel.relid].0 == rel then [] else [TableSchema(rel.relid, s.key, s.row)]
    decreases n
  {
    if n == 1 {
    } else {
      SentOnce<D>(Seen(h, rel, true), rel, s, n - 1);
    }
  }

  // A tuple with its own descriptor, which leaves out some dropped columns of the
  // relation's.
  ghost predicate TupleOf<D>(rel: Relation, keep: seq<bool>, desc: TupleDesc, tuple: seq<Option<D>>) {
    DescOf(rel.desc, keep, desc) && |tuple| == |desc|
  }

  // The columns of the index that keys the relation, if there is one.
  ghost predicate IndexedBy(rel: Relation, indkey: seq<nat>) {
    rel.index.Some? ==> Indexes(rel.desc, rel.index.value.desc, indkey)
  }

  // The indexed columns' values; they fill the key schema, type by type.
  ghost predicate KeyValues<D>(rel: Relation, keep: seq<bool>, tuple: seq<Option<D>>, indkey: seq<nat>,
                               fields: seq<Field>, values: seq<FieldValue<D>>)
    requires |keep| == |rel.desc| && IndexedBy(rel, indkey) && rel.index.Some?
  {
    && |values| == |indkey| == |fields|
    && (forall f :: 0 <= f < |values| ==> values[f].typid == fields[f].typid)
    && forall f :: 0 <= f < |indkey| ==> IsColumnValue(rel.desc, keep, tuple, indkey[f] - 1, values[f])
  }

  ghost predicate IsRow<D>(s: Schemas, desc: TupleDesc, tuple: seq<Option<D>>, p: Payload<D>)
    requires |tuple| == |desc|
  {
    p == Payload(s.row, LiveValues(desc, tuple))
  }

  ghost predicate IsKey<D>(s: Schemas, rel: Relation, keep: seq<bool>, tuple: seq<Option<D>>, indkey: seq<nat>,
                           p: Option<Payload<D>>)
    requires |keep| == |rel.desc| && IndexedBy(rel, indkey)
  {
    if s.key.None? || rel.index.None? then p.None?
    else
      && p.Some? && p.value.schema == s.key.value
      && KeyValues(rel, keep, tuple, indkey, s.key.value.fields, p.value.values)
  }

  // The encoded key and row of the old tuple, if there is one.
  ghost predicate IsOld<D>(s: Schemas, rel: Relation, oldTuple: Option<seq<Option<D>>>, indkey: seq<nat>,
                           key: Option<Payload<D>>, row: Option<Payload<D>>)
    requires IndexedBy(rel, indkey) && (oldTuple.Some? ==> |oldTuple.value| == |rel.desc|)
  {
    if oldTuple.Some? then
      && IsKey(s, rel, All(rel), oldTuple.value, indkey, key)
      && row.Some? && IsRow(s, rel.desc, oldTuple.value, row.value)
    else key.None? && row.None?
  }

  ghost function All(rel: Relation): seq<bool> {
    seq(|rel.desc|, _ => true)
  }

  lemma OwnTuple<D>(rel: Relation, tuple: seq<Option<D>>)
    requires |tuple| == |rel.desc|
    ensures TupleOf(rel, All(rel), rel.desc, tuple)
  {
    OwnDescriptor(rel.desc, |rel.desc|);
    assert rel.desc[..|rel.desc|] == rel.desc;
  }

  class Plugin<D(==)> {
    const cache: Cache
    var frame: Frame<D>

    ghost predicate Valid()
      reads this, cache
    {
      cache.Valid()
    }

    constructor (namespacePrefix: Bytes)
      ensures Valid() && fresh(cache) && frame == [] && cache.history == map[]
    {
      cache := new Cache(namespacePrefix);
      frame := [];
    }

    method ExtractKey(rel: Relation, schemas: Schemas, ghost keep: seq<bool>, desc: TupleDesc, tuple: seq<Option<D>>,
                      indkey: seq<nat>)
      returns (key: Option<Payload<D>>)
      requires TupleOf(rel, keep, desc, tuple) && IndexedBy(rel, indkey) && schemas == FreshSchemas(cache.prefix, rel)
      ensures IsKey(schemas, rel, keep, tuple, indkey, key)
    {
      key := None;
      if schemas.key.Some? {
        var values := TupleToAvroKey(rel.desc, keep, desc, tuple, rel.index.value.desc, indkey,
                                     schemas.key.value.fields);
        key := Some(Payload(schemas.key.value, values));
      }
    }

    method EncodeRow(rel: Relation, schemas: Schemas, ghost keep: seq<bool>, desc: TupleDesc, tuple: seq<Option<D>>)
      returns (row: Payload<D>)
      requires TupleOf(rel, keep, desc, tuple) && schemas == FreshSchemas(cache.prefix, rel)
      ensures IsRow(schemas, desc, tuple, row)
    {
      var values := TupleToAvroRow(rel.desc, keep, desc, tuple, schemas.row.fields);
      row := Payload(schemas.row, values);
    }

    method EncodeOld(rel: Relation, schemas: Schemas, oldTuple: Option<seq<Option<D>>>, indkey: seq<nat>)
      returns (key: Option<Payload<D>>, row: Option<Payload<D>>)
      requires IndexedBy(rel, indkey) && (oldTuple.Some? ==> |oldTuple.value| == |rel.desc|)
      requires schemas == FreshSchemas(cache.prefix, rel)
      ensures IsOld(schemas, rel, oldTuple, indkey, key, row)
    {
      key, row := None, None;
      if oldTuple.Some? {
        OwnTuple(rel, oldTuple.value);
        key := ExtractKey(rel, schemas, All(rel), rel.desc, oldTuple.value, indkey);
        var bin := EncodeRow(rel, schemas, All(rel), rel.desc, oldTuple.value);
        row := Some(bin);
      }
    }

    // The lookup that starts every change, and the schema message it calls for.
    method BeginChange(rel: Relation, buildSucceeds: bool) returns (outcome: Outcome, schemas: Schemas)
      requires Valid() && WellFormed(rel)
      modifies this, cache
      ensures Valid() && cache.history == Seen(old(cache.history), rel, buildSucceeds)
      ensures outcome.Added? <==> rel.relid in cache.history && cache.history[rel.relid].1
      ensures outcome.Refused? <==> Code(old(cache.history), rel, buildSucceeds) < 0
      ensures !outcome.Unconverted?
      ensures outcome.Added? ==>
                && schemas == FreshSchemas(cache.prefix, rel)
                && frame == old(frame)
                            + SchemaMessages(Code(old(cache.history), rel, buildSucceeds), rel.relid, schemas)
      ensures !outcome.Added? ==> frame == old(frame)
    {
      var code, found := cache.Lookup(rel, buildSucceeds);
      schemas := Schemas(None, Schema([], [], [], false));
      if code < 0 {
        return Refused, schemas;
      }
      if found.None? {
        return Unusable, schemas;
      }
      schemas := found.value;
      if code != 0 {
        frame := frame + [TableSchema(rel.relid, schemas.key, schemas.row)];
      }
      outcome := Added;
    }

    method UpdateFrameWithInsert(rel: Relation, ghost keep: seq<bool>, desc: TupleDesc, newTuple: seq<Option<D>>,
                                 indkey: seq<nat>, buildSucceeds: bool, converts: bool)
      returns (outcome: Outcome, ghost key: Option<Payload<D>>, ghost row: Payload<D>)
      requires Valid() && WellFormed(rel) && TupleOf(rel, keep, desc, newTuple) && IndexedBy(rel, indkey)
      modifies this, cache
      ensures Valid() && cache.history == Seen(old(cache.history), rel, buildSucceeds)
      ensures outcome.Added? || outcome.Unconverted? <==> cache.history[rel.relid].1
      ensures outcome.Unconverted? <==> !converts && cache.history[rel.relid].1
      ensures outcome.Added? ==>
                var s := FreshSchemas(cache.prefix, rel);
                && IsKey(s, rel, keep, newTuple, indkey, key) && IsRow(s, desc, newTuple, row)
                && frame == old(frame) + SchemaMessages(Code(old(cache.history), rel, buildSucceeds), rel.relid, s)
                            + [Insert(rel.relid, key, row)]
      ensures outcome.Refused? || outcome.Unusable? ==> frame == old(frame)
      ensures outcome.Unconverted? ==>
                frame == old(frame) + SchemaMessages(Code(old(cache.history), rel, buildSucceeds), rel.relid,
                                                     FreshSchemas(cache.prefix, rel))
    {
      var s;
      outcome, s := BeginChange(rel, buildSucceeds);
      key, row := None, Payload(s.row, []);
      if !outcome.Added? {
        return;
      }
      if !converts {
        outcome := Unconverted;
        return;
      }
      var keyBin := ExtractKey(rel, s, keep, desc, newTuple, indkey);
      var newBin := EncodeRow(rel, s, keep, desc, newTuple);
      frame := frame + [Insert(rel.relid, keyBin, newBin)];
      key, row := keyBin, newBin;
    }

    method AppendUpdate(relid: Oid, oldKey: Option<Payload<D>>, oldRow: Option<Payload<D>>,
                        newKey: Option<Payload<D>>, newRow: Payload<D>)
      modifies this`frame
      ensures frame == old(frame) + UpdateMessages(relid, oldKey, oldRow, newKey, newRow)
    {
      if oldKey.Some? && oldKey != newKey {
        frame := frame + [Delete(relid, oldKey, oldRow)];
        frame := frame + [Insert(relid, newKey, newRow)];
      } else {
        frame := frame + [Update(relid, newKey, oldRow, newRow)];
      }
    }

    method UpdateFrameWithUpdate(rel: Relation, oldTuple: Option<seq<Option<D>>>, newTuple: seq<Option<D>>,
                                 indkey: seq<nat>, buildSucceeds: bool, converts: bool)
      returns (outcome: Outcome, ghost oldKey: Option<Payload<D>>, ghost oldRow: Option<Payload<D>>,
               ghost newKey: Option<Payload<D>>, ghost newRow: Payload<D>)
      requires Valid() && WellFormed(rel) && IndexedBy(rel, indkey) && |newTuple| == |rel.desc|
      requires oldTuple.Some? ==> |oldTuple.value| == |rel.desc|
      modifies this, cache
      ensures Valid() && cache.history == Seen(old(cache.history), rel, buildSucceeds)
      ensures outcome.Added? || outcome.Unconverted? <==> cache.history[rel.relid].1
      ensures outcome.Unconverted? <==> !converts && cache.history[rel.relid].1
      ensures outcome.Added? ==>
                var s := FreshSchemas(cache.prefix, rel);
                && IsKey(s, rel, All(rel), newTuple, indkey, newKey) && IsRow(s, rel.desc, newTuple, newRow)
                && IsOld(s, rel, oldTuple, indkey, oldKey, oldRow)
                && frame == old(frame) + SchemaMessages(Code(old(cache.history), rel, buildSucceeds), rel.relid, s)
                            + UpdateMessages(rel.relid, oldKey, oldRow, newKey, newRow)
      ensures outcome.Refused? || outcome.Unusable? ==> frame == old(frame)
      ensures outcome.Unconverted? ==>
                frame == old(frame) + SchemaMessages(Code(old(cache.history), rel, buildSucceeds), rel.relid,
                                                     FreshSchemas(cache.prefix, rel))
    {
      var s;
      outcome, s := BeginChange(rel, buildSucceeds);
      oldKey, oldRow, newKey, newRow := None, None, None, Payload(s.row, []);
      if !outcome.Added? {
        return;
      }
      if !converts {
        outcome := Unconverted;
        return;
      }
      var oldKeyBin, oldBin := EncodeOld(rel, s, oldTuple, indkey);
      OwnTuple(rel, newTuple);
      var newKeyBin := ExtractKey(rel, s, All(rel), rel.desc, newTuple, indkey);
      var newBin := EncodeRow(rel, s, All(rel), rel.desc, newTuple);
      AppendUpdate(rel.relid, oldKeyBin, oldBin, newKeyBin, newBin);
      oldKey, oldRow, newKey, newRow := oldKeyBin, oldBin, newKeyBin, newBin;
    }

    method UpdateFrameWithDelete(rel: Relation, oldTuple: Option<seq<Option<D>>>, indkey: seq<nat>, buildSucceeds: bool,
                                 converts: bool)
      returns (outcome: Outcome, ghost key: Option<Payload<D>>, ghost row: Option<Payload<D>>)
      requires Valid() && WellFormed(rel) && IndexedBy(rel, indkey)
      requires oldTuple.Some? ==> |oldTuple.value| == |rel.desc|
      modifies this, cache
      ensures Valid() && cache.history == Seen(old(cache.history), rel, buildSucceeds)
      ensures outcome.Added? || outcome.Unconverted? <==> cache.history[rel.relid].1
      ensures outcome.Unconverted? <==> oldTuple.Some? && !converts && cache.history[rel.relid].1
      ensures outcome.Added? ==>
                var s := FreshSchemas(cache.prefix, rel);
                && IsOld(s, rel, oldTuple, indkey, key, row)
                && frame == old(frame) + SchemaMessages(Code(old(cache.history), rel, buildSucceeds), rel.relid, s)
                            + [Delete(rel.relid, key, row)]
      ensures outcome.Refused? || outcome.Unusable? ==> frame == old(frame)
      ensures outcome.Unconverted? ==>
                frame == old(frame) + SchemaMessages(Code(old(cache.history), rel, buildSucceeds), rel.relid,
                                                     FreshSchemas(cache.prefix, rel))
    {
      var s;
      outcome, s := BeginChange(rel, buildSucceeds);
      key, row := None, None;
      if !outcome.Added? {
        return;
      }
      if oldTuple.Some? && !converts {
        outcome := Unconverted;
        return;
      }
      var keyBin, oldBin := EncodeOld(rel, s, oldTuple, indkey);
      frame := frame + [Delete(rel.relid, keyBin, oldBin)];
      key, row := keyBin, oldBin;
    }
  }
}
