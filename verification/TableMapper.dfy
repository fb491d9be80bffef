/** The producer's table of topics and schemas (kafka/table_mapper.c). */
module TableMapper {
  import opened Common

  // A parsed schema, standing for the JSON text it was parsed from.
  type Json = Bytes

  const SCHEMA_ID_MISSING: int := -1
  const MAX_TOPIC_LEN: nat := 257
  const TOPIC_PREFIX_DEL: byte := 0x2E

  datatype Meta = Meta(relid: Oid, name: Option<Bytes>, topic: Option<Bytes>,
                       keyId: int, keySchema: Option<Json>, rowId: int, rowSchema: Option<Json>,
                       deleted: bool)

  // What the outside world answers during one update: whether Kafka opens the
  // topic, what the registry says, and whether the schemas parse.
  datatype RegistryAnswer = NoRegistry | Id(id: int) | RegistryError

  datatype Answers = Answers(topicOpens: bool, key: RegistryAnswer, row: RegistryAnswer,
                             keyParses: bool, rowParses: bool)

  // An update as the table schema callback requests it.
  datatype Request = Request(relid: Oid, name: Bytes, key: Option<Json>, row: Json, answers: Answers)

  // ---- what an update should leave behind ----

  function TopicName(prefix: Option<Bytes>, name: Bytes): Bytes {
    if prefix.Some? then prefix.value + [TOPIC_PREFIX_DEL] + name else name
  }

  /** A topic is the table's name after the prefix and a dot, if there is a prefix, so
      no two tables share one. */
  lemma TopicNameParts(prefix: Option<Bytes>, a: Bytes, b: Bytes)
    ensures prefix.None? ==> TopicName(prefix, a) == a
    ensures prefix.Some? ==>
              var p, t := prefix.value, TopicName(prefix, a);
              |t| == |p| + 1 + |a| && t[..|p|] == p && t[|p|] == 0x2E && t[|p| + 1..] == a
    ensures TopicName(prefix, a) == TopicName(prefix, b) ==> a == b
  {
    if prefix.Some? && TopicName(prefix, a) == TopicName(prefix, b) {
      assert TopicName(prefix, a)[|prefix.value| + 1..] == a;
      assert TopicName(prefix, b)[|prefix.value| + 1..] == b;
    }
  }

  // The registry is not asked about a missing schema.
  function IdFor(json: Option<Json>, answer: RegistryAnswer): int {
    if json.Some? && json.value != [] && answer.Id? then answer.id else SCHEMA_ID_MISSING
  }

  // The registry's ids identify schemas: this is what `schemaOf` records.
  ghost predicate HonestAnswer(schemaOf: map<int, Json>, json: Option<Json>, answer: RegistryAnswer) {
    answer.Id? && json.Some? && json.value != [] ==>
      answer.id != SCHEMA_ID_MISSING && answer.id in schemaOf && schemaOf[answer.id] == json.value
  }

  ghost predicate Honest(schemaOf: map<int, Json>, hasRegistry: bool, req: Request) {
    && HonestAnswer(schemaOf, req.key, req.answers.key)
    && HonestAnswer(schemaOf, Some(req.row), req.answers.row)
    && (hasRegistry <==> !req.answers.key.NoRegistry?)
    && (hasRegistry <==> !req.answers.row.NoRegistry?)
  }

  // The metadata that belongs to a successful request.
  function MetaFor(prefix: Option<Bytes>, req: Request): Meta {
    Meta(req.relid, Some(req.name), Some(TopicName(prefix, req.name)),
         IdFor(req.key, req.answers.key), req.key, IdFor(Some(req.row), req.answers.row), Some(req.row), false)
  }

  // ---- the table as a map ----

  ghost predicate LiveFor(tables: seq<Meta>, i: nat, relid: Oid) {
    i < |tables| && !tables[i].deleted && tables[i].relid == relid
  }

  // The live entries are exactly those of the map, one each.
  ghost predicate Refines(tables: seq<Meta>, m: map<Oid, Meta>) {
    && (forall i: nat :: i < |tables| && !tables[i].deleted ==>
          tables[i].relid in m && m[tables[i].relid] == tables[i])
    && (forall id :: id in m ==> exists i: nat :: LiveFor(tables, i, id))
    && (forall i: nat, j: nat :: i < j < |tables| && !tables[i].deleted && !tables[j].deleted ==>
          tables[i].relid != tables[j].relid)
  }

  // A remembered id goes with the schema it was assigned to.
  ghost predicate Remembers(schemaOf: map<int, Json>, id: int, schema: Option<Json>) {
    id != SCHEMA_ID_MISSING ==> id in schemaOf && schema == Some(schemaOf[id])
  }

  ghost predicate Consistent(schemaOf: map<int, Json>, prefix: Option<Bytes>, hasRegistry: bool, t: Meta) {
    && (!hasRegistry ==> t.keyId == t.rowId == SCHEMA_ID_MISSING)
    && Remembers(schemaOf, t.keyId, t.keySchema)
    && Remembers(schemaOf, t.rowId, t.rowSchema)
    && (t.topic.Some? ==> t.name.Some? && t.topic == Some(TopicName(prefix, t.name.value)))
  }

  class Mapper {
    const prefix: Option<Bytes>
    const hasRegistry: bool
    var tables: seq<Meta>
    ghost const schemaOf: map<int, Json>
    ghost var live: map<Oid, Meta>

    ghost predicate Valid()
      reads this
    {
      && Refines(tables, live)
      && forall i :: 0 <= i < |tables| && !tables[i].deleted ==> Consistent(schemaOf, prefix, hasRegistry, tables[i])
    }

    constructor (topicPrefix: Option<Bytes>, registry: bool, ghost ids: map<int, Json>)
      ensures Valid() && live == map[] && prefix == topicPrefix && hasRegistry == registry && schemaOf == ids
    {
      prefix, hasRegistry, tables := topicPrefix, registry, [];
      schemaOf, live := ids, map[];
    }

    /** Finds the live metadata of a relid, if the last update for it succeeded. */
    method Lookup(relid: Oid) returns (found: int)
      requires Valid()
      ensures found < 0 <==> relid !in live
      ensures 0 <= found ==> found < |tables| && LiveFor(tables, found, relid) && live[relid] == tables[found]
    {
      var i := 0;
      while i < |tables|
        invariant 0 <= i <= |tables|
        invariant forall j :: 0 <= j < i ==> tables[j].deleted || tables[j].relid != relid
      {
        if !tables[i].deleted && tables[i].relid == relid {
          return i;
        }
        i := i + 1;
      }
      found := -1;
      assert forall k: nat :: !LiveFor(tables, k, relid);
    }

    /** Opens the topic unless the name is the one it was opened under. */
    method UpdateTopic(t: Meta, name: Bytes, opens: bool) returns (ok: bool, t': Meta)
      requires t.topic.Some? ==> t.name.Some? && t.topic == Some(TopicName(prefix, t.name.value))
      ensures ok ==> t' == t.(name := Some(name), topic := Some(TopicName(prefix, name)))
      ensures t'.relid == t.relid
      ensures ok <==> (t.topic.Some? && t.name == Some(name))
                      || (opens && (prefix.Some? ==> |prefix.value| + 1 + |name| <= 256))
    {
      t' := t;
      if t.topic.Some? && t.name == Some(name) {
        return true, t;
      }
      t' := t'.(name := Some(name));
      if prefix.Some? && |prefix.value + [TOPIC_PREFIX_DEL] + name| >= MAX_TOPIC_LEN {
        return false, t';
      }
      if !opens {
        return false, t'.(topic := None);
      }
      t' := t'.(topic := Some(TopicName(prefix, name)));
      ok := true;
    }

    /** Registers the schema and parses it, unless the registry returned the id
        already remembered. Either way the schema kept is the one requested. */
    method UpdateSchema(prevId: int, prev: Option<Json>, json: Option<Json>, answer: RegistryAnswer, parses: bool)
      returns (ok: bool, id: int, schema: Option<Json>)
      requires Remembers(schemaOf, prevId, prev) && HonestAnswer(schemaOf, json, answer)
      requires hasRegistry <==> !answer.NoRegistry?
      requires !hasRegistry ==> prevId == SCHEMA_ID_MISSING
      ensures ok ==> id == IdFor(json, answer) && schema == json
      ensures ok ==> id == if json.Some? && json.value != [] && answer.Id? then answer.id else -1
      ensures ok <==> !(answer.RegistryError? && json.Some? && json.value != [])
                      && (json.None? || parses || (prevId != SCHEMA_ID_MISSING && prevId == IdFor(json, answer)))
    {
      id, schema := prevId, prev;
      var schemaId := SCHEMA_ID_MISSING;
      if hasRegistry {
        if json.Some? && json.value != [] {
          if answer.RegistryError? {
            return false, id, schema;
          }
          schemaId := answer.id;
        }
        id := schemaId;
      }
      if prevId == SCHEMA_ID_MISSING || prevId != schemaId {
        if json.Some? && !parses {
          return false, id, schema;
        }
        schema := json;
      }
      ok := true;
    }

    // The metadata of a known table, or of a new one registered for it.
    method FindOrAdd(relid: Oid) returns (at: nat)
      requires Valid()
      modifies this
      ensures Valid() && LiveFor(tables, at, relid)
      ensures tables[at] == Previous(old(live), relid)
      ensures live == old(live)[relid := tables[at]]
    {
      var found := Lookup(relid);
      if found < 0 {
        NewMetaRefines(tables, live, relid);
        tables := tables + [NewMeta(relid)];
        live := live[relid := NewMeta(relid)];
        at := |tables| - 1;
      } else {
        at := found;
      }
    }

    // The three steps of an update; the first that fails marks the entry deleted.
    method UpdateEntry(t: Meta, req: Request) returns (ok: bool, t': Meta)
      requires t.relid == req.relid && !t.deleted && Consistent(schemaOf, prefix, hasRegistry, t)
      requires Honest(schemaOf, hasRegistry, req)
      ensures t'.relid == t.relid && t'.deleted == !ok
      ensures ok <==> EntrySucceeds(prefix, t, req)
      ensures ok ==> t' == MetaFor(prefix, req)
    {
      ok, t' := UpdateTopic(t, req.name, req.answers.topicOpens);
      if !ok {
        return false, t'.(deleted := true);
      }
      var id, schema;
      ok, id, schema := UpdateSchema(t.keyId, t.keySchema, req.key, req.answers.key, req.answers.keyParses);
      t' := t'.(keyId := id, keySchema := schema);
      if !ok {
        return false, t'.(deleted := true);
      }
      ok, id, schema := UpdateSchema(t.rowId, t.rowSchema, Some(req.row), req.answers.row, req.answers.rowParses);
      t' := t'.(rowId := id, rowSchema := schema);
      if !ok {
        return false, t'.(deleted := true);
      }
    }

    /** Replaces whatever was known about the relid by the metadata of this request
        if it succeeds, and forgets it if it fails. Other tables are untouched. */
    method Update(req: Request) returns (ok: bool)
      requires Valid() && Honest(schemaOf, hasRegistry, req)
      modifies this
      ensures Valid()
      ensures ok <==> Succeeds(prefix, old(live), req)
      ensures live == After(prefix, old(live), req)
    {
      var at := FindOrAdd(req.relid);
      var t;
      ok, t := UpdateEntry(tables[at], req);
      Replaced(tables, live, at, t);
      tables := tables[at := t];
      live := if ok then live[req.relid := t] else live - {req.relid};
    }
  }

  function NewMeta(relid: Oid): Meta {
    Meta(relid, None, None, SCHEMA_ID_MISSING, None, SCHEMA_ID_MISSING, None, false)
  }

  lemma NewMetaRefines(tables: seq<Meta>, m: map<Oid, Meta>, relid: Oid)
    requires Refines(tables, m) && relid !in m
    ensures Refines(tables + [NewMeta(relid)], m[relid := NewMeta(relid)])
  {
    var tables', m' := tables + [NewMeta(relid)], m[relid := NewMeta(relid)];
    forall id | id in m'
      ensures exists i: nat :: LiveFor(tables', i, id)
    {
      if id == relid {
        assert LiveFor(tables', |tables|, id);
      } else {
        var i: nat :| LiveFor(tables, i, id);
        assert LiveFor(tables', i, id);
      }
    }
  }

  lemma Replaced(tables: seq<Meta>, m: map<Oid, Meta>, at: nat, t: Meta)
    requires Refines(tables, m) && LiveFor(tables, at, t.relid)
    ensures Refines(tables[at := t], if t.deleted then m - {t.relid} else m[t.relid := t])
  {
    var tables', m' := tables[at := t], if t.deleted then m - {t.relid} else m[t.relid := t];
    forall id | id in m'
      ensures exists i: nat :: LiveFor(tables', i, id)
    {
      if id == t.relid {
        assert LiveFor(tables', at, id);
      } else {
        var i: nat :| LiveFor(tables, i, id);
        assert LiveFor(tables', i, id);
      }
    }
  }

  // ---- updates as values ----

  // The metadata an update starts from.
  function Previous(m: map<Oid, Meta>, relid: Oid): Meta {
    if relid in m then m[relid] else NewMeta(relid)
  }

  predicate TopicOk(prefix: Option<Bytes>, t: Meta, req: Request) {
    || (t.topic.Some? && t.name == Some(req.name))
    || (req.answers.topicOpens && (prefix.Some? ==> |TopicName(prefix, req.name)| < MAX_TOPIC_LEN))
  }

  predicate SchemaOk(prevId: int, json: Option<Json>, answer: RegistryAnswer, parses: bool) {
    && !(answer.RegistryError? && json.Some? && json.value != [])
    && (json.None? || parses || (prevId != SCHEMA_ID_MISSING && prevId == IdFor(json, answer)))
  }

  predicate EntrySucceeds(prefix: Option<Bytes>, t: Meta, req: Request) {
    && TopicOk(prefix, t, req)
    && SchemaOk(t.keyId, req.key, req.answers.key, req.answers.keyParses)
    && SchemaOk(t.rowId, Some(req.row), req.answers.row, req.answers.rowParses)
  }

  predicate Succeeds(prefix: Option<Bytes>, m: map<Oid, Meta>, req: Request) {
    EntrySucceeds(prefix, Previous(m, req.relid), req)
  }

  function After(prefix: Option<Bytes>, m: map<Oid, Meta>, req: Request): map<Oid, Meta> {
    if Succeeds(prefix, m, req) then m[req.relid := MetaFor(prefix, req)] else m - {req.relid}
  }

  ghost function AfterAll(prefix: Option<Bytes>, reqs: seq<Request>): map<Oid, Meta> {
    if reqs == [] then map[] else After(prefix, AfterAll(prefix, reqs[..|reqs| - 1]), reqs[|reqs| - 1])
  }

  function RelidOf(req: Request): Oid {
    req.relid
  }

  /** After any mix of successful and failed updates, a table is registered exactly
      when the last update for it succeeded, and then with the topic, the ids and
      the schemas of that update. */
  lemma {:induction false} LastUpdateDecides(prefix: Option<Bytes>, reqs: seq<Request>, relid: Oid, i: nat)
    requires LastFor(reqs, RelidOf, relid, i)
    ensures relid in AfterAll(prefix, reqs) <==> Succeeds(prefix, AfterAll(prefix, reqs[..i]), reqs[i])
    ensures relid in AfterAll(prefix, reqs) ==>
              var t, req := AfterAll(prefix, reqs)[relid], reqs[i];
              && t == MetaFor(prefix, req)
              && t.relid == relid && !t.deleted && t.name == Some(req.name)
              && t.topic == Some(if prefix.Some? then prefix.value + [0x2E] + req.name else req.name)
              && t.keySchema == req.key && t.rowSchema == Some(req.row)
              && (req.answers.row.Id? && req.row != [] ==> t.rowId == req.answers.row.id)
              && (req.answers.key.Id? && req.key.Some? && req.key.value != [] ==> t.keyId == req.answers.key.id)
    decreases |reqs|
  {
    var n := |reqs| - 1;
    if i == n {
    } else {
      var before := reqs[..n];
      assert LastFor(before, RelidOf, relid, i) && before[..i] == reqs[..i];
      LastUpdateDecides(prefix, before, relid, i);
    }
  }

  lemma {:induction false} NeverUpdatedNotFound(prefix: Option<Bytes>, reqs: seq<Request>, relid: Oid)
    requires forall j :: 0 <= j < |reqs| ==> reqs[j].relid != relid
    ensures relid !in AfterAll(prefix, reqs)
    decreases |reqs|
  {
    if reqs == [] {
    } else {
      NeverUpdatedNotFound(prefix, reqs[..|reqs| - 1], relid);
    }
  }
}
