/** The plugin's cache of table schemas (ext/schema_cache.c). */
module SchemaCache {
  import opened Common
  import opened AvroName
  import opened Columns

  // The index that keys a table: its primary key or replica identity.
  datatype Index = Index(id: Oid, nsId: Oid, name: Bytes, nsName: Bytes, desc: TupleDesc)

  // A relation as the catalog describes it at some moment.
  datatype Relation = Relation(relid: Oid, nsId: Oid, name: Bytes, nsName: Bytes,
                               index: Option<Index>, desc: TupleDesc)

  // Object ids are never the invalid one; names are never empty.
  ghost predicate WellFormed(rel: Relation) {
    && rel.name != [] && Named(rel.desc)
    && (rel.index.Some? ==> rel.index.value.id != 0 && rel.index.value.name != [] && Named(rel.index.value.desc))
  }

  datatype Schemas = Schemas(key: Option<Schema>, row: Schema)

  // Dot-separated prefix of every generated namespace.
  ghost function Namespace(prefix: Bytes, nsName: Bytes): Bytes {
    prefix + [DOT] + nsName
  }

  ghost function SchemaFor(prefix: Bytes, name: Bytes, nsName: Bytes, desc: TupleDesc): Schema {
    Schema(Escape(name, false), Escape(Namespace(prefix, nsName), true), FieldsFor(Live(desc)), desc == [])
  }

  // What building the schemas from scratch gives.
  ghost function FreshSchemas(prefix: Bytes, rel: Relation): Schemas {
    Schemas(if rel.index.Some?
            then Some(SchemaFor(prefix, rel.index.value.name, rel.index.value.nsName, rel.index.value.desc))
            else None,
            SchemaFor(prefix, rel.name, rel.nsName, rel.desc))
  }

  /** Schemas are named after the table and, for the key, the index; their namespaces
      are the prefix, a dot and the Postgres schema of each. Names that are valid as
      they are stay so. */
  lemma FreshNames(prefix: Bytes, rel: Relation)
    ensures var s := FreshSchemas(prefix, rel);
            && (ValidName(rel.name) ==> s.row.name == rel.name)
            && (ValidNamespace(prefix + [DOT] + rel.nsName, true) ==> s.row.namespace == prefix + [DOT] + rel.nsName)
            && (s.key.Some? <==> rel.index.Some?)
            && (rel.index.Some? && ValidName(rel.index.value.name) ==> s.key.value.name == rel.index.value.name)
            && (rel.index.Some? && ValidNamespace(prefix + [DOT] + rel.index.value.nsName, true) ==>
                  s.key.value.namespace == prefix + [DOT] + rel.index.value.nsName)
  {
    if ValidName(rel.name) {
      UnchangedIffValid(rel.name);
    }
    if ValidNamespace(prefix + [DOT] + rel.nsName, true) {
      ValidNamespaceKept(prefix + [DOT] + rel.nsName, []);
    }
    if rel.index.Some? {
      var index := rel.index.value;
      if ValidName(index.name) {
        UnchangedIffValid(index.name);
      }
      if ValidNamespace(prefix + [DOT] + index.nsName, true) {
        ValidNamespaceKept(prefix + [DOT] + index.nsName, []);
      }
    }
  }

  // A hash table entry. The schemas are missing after a build that failed: the
  // entry stays in the table, with the relation's description already filled in.
  datatype Entry = Entry(relid: Oid, nsId: Oid, relname: Bytes, nsName: Bytes,
                         keyId: Oid, keyNsId: Oid, keyName: Bytes, keyNsName: Bytes,
                         keyDesc: TupleDesc, rowDesc: TupleDesc, schemas: Option<Schemas>)

  const INVALID_OID: Oid := 0

  function Described(rel: Relation, schemas: Option<Schemas>): Entry {
    match rel.index
    case Some(ix) =>
      Entry(rel.relid, rel.nsId, rel.name, rel.nsName, ix.id, ix.nsId, ix.name, ix.nsName, ix.desc, rel.desc, schemas)
    case None =>
      Entry(rel.relid, rel.nsId, rel.name, rel.nsName, INVALID_OID, INVALID_OID, [], [], [], rel.desc, schemas)
  }

  /** True exactly when some input of the schemas differs from the entry's copy. */
  method EntryChanged(entry: Entry, rel: Relation, ghost copied: Relation) returns (changed: bool)
    requires WellFormed(rel) && WellFormed(copied) && entry == Described(copied, entry.schemas)
    ensures changed <==> copied != rel
  {
    if entry.relid != rel.relid { return true; }
    if entry.nsId != rel.nsId { return true; }
    if entry.relname != rel.name { return true; }
    if entry.nsName != rel.nsName { return true; }
    changed := false;
    if rel.index.Some? && entry.keyId != INVALID_OID {
      var index := rel.index.value;
      if entry.keyId != index.id { changed := true; }
      if entry.keyNsId != index.nsId { changed := true; }
      if entry.keyName != index.name { changed := true; }
      if entry.keyNsName != index.nsName { changed := true; }
      if entry.keyDesc != index.desc { changed := true; }
    } else if rel.index.Some? || entry.keyId != INVALID_OID {
      changed := true;
    }
    if changed { return true; }
    changed := entry.rowDesc != rel.desc;
  }

  // ---- lookups as values ----

  // The last description seen of each relation, and whether the schemas were
  // built when it was first seen in that form.
  type History = map<Oid, (Relation, bool)>

  ghost predicate Represents(prefix: Bytes, entries: map<Oid, Entry>, h: History) {
    && entries.Keys == h.Keys
    && forall id :: id in h ==>
         && WellFormed(h[id].0) && h[id].0.relid == id
         && entries[id] == Described(h[id].0, if h[id].1 then Some(FreshSchemas(prefix, h[id].0)) else None)
  }

  // 2: not seen before; 0: same description as last time; 1: changed; negative
  // if the schemas could not be built.
  ghost function Code(h: History, rel: Relation, buildSucceeds: bool): int {
    if rel.relid !in h then (if buildSucceeds then 2 else -2)
    else if h[rel.relid].0 == rel then 0
    else (if buildSucceeds then 1 else -1)
  }

  ghost function Seen(h: History, rel: Relation, buildSucceeds: bool): History {
    if rel.relid in h && h[rel.relid].0 == rel then h else h[rel.relid := (rel, buildSucceeds)]
  }

  class Cache {
    const prefix: Bytes
    var entries: map<Oid, Entry>
    ghost var history: History

    ghost predicate Valid()
      reads this
    {
      Represents(prefix, entries, history)
    }

    constructor (namespacePrefix: Bytes)
      ensures Valid() && entries == map[] && history == map[] && prefix == namespacePrefix
    {
      prefix, entries, history := namespacePrefix, map[], map[];
    }

    /** Builds the schemas of a relation; the library may fail to. */
    method EntryUpdate(rel: Relation, buildSucceeds: bool) returns (entry: Entry)
      requires WellFormed(rel)
      ensures entry == Described(rel, if buildSucceeds then Some(FreshSchemas(prefix, rel)) else None)
    {
      if !buildSucceeds {
        return Described(rel, None);
      }
      var ok, row := SchemaForTableRow(rel.name, prefix + [DOT] + rel.nsName, rel.desc);
      var key: Option<Schema> := None;
      if rel.index.Some? {
        var index := rel.index.value;
        var keyOk, keySchema := SchemaForTableRow(index.name, prefix + [DOT] + index.nsName, index.desc);
        key := Some(keySchema);
      }
      entry := Described(rel, Some(Schemas(key, row)));
    }

    /** The cached schemas are those a fresh build would give, exactly when the
        build succeeded the last time the relation's description changed. */
    method Lookup(rel: Relation, buildSucceeds: bool) returns (code: int, schemas: Option<Schemas>)
      requires Valid() && WellFormed(rel)
      modifies this
      ensures Valid()
      ensures history == Seen(old(history), rel, buildSucceeds)
      ensures code == Code(old(history), rel, buildSucceeds)
      ensures rel.relid in history && history[rel.relid].0 == rel
      ensures schemas == if history[rel.relid].1 then Some(FreshSchemas(prefix, rel)) else None
    {
      if rel.relid in entries {
        var entry := entries[rel.relid];
        var changed := EntryChanged(entry, rel, history[rel.relid].0);
        if !changed {
          return 0, entry.schemas;
        }
        code := if buildSucceeds then 1 else -1;
      } else {
        code := if buildSucceeds then 2 else -2;
      }
      var entry := EntryUpdate(rel, buildSucceeds);
      entries := entries[rel.relid := entry];
      history := history[rel.relid := (rel, buildSucceeds)];
      schemas := entry.schemas;
    }
  }

  // ---- sequences of lookups ----

  datatype Request = Request(rel: Relation, buildSucceeds: bool)

  ghost function HistoryAfter(requests: seq<Request>): History {
    if requests == [] then map[]
    else
      var n := |requests| - 1;
      Seen(HistoryAfter(requests[..n]), requests[n].rel, requests[n].buildSucceeds)
  }

  function RelidOf(request: Request): Oid {
    request.rel.relid
  }

  ghost predicate Mentions(requests: seq<Request>, relid: Oid) {
    exists i :: 0 <= i < |requests| && RelidOf(requests[i]) == relid
  }

  // Request `i` is where the relation took on the description it still has: all
  // later requests for it are the same, and the one before it was different.
  ghost predicate Settled(requests: seq<Request>, relid: Oid, i: nat) {
    && i < |requests| && RelidOf(requests[i]) == relid
    && (forall j :: i < j < |requests| && RelidOf(requests[j]) == relid ==> requests[j].rel == requests[i].rel)
    && (forall p: nat :: LastFor(requests[..i], RelidOf, relid, p) ==> requests[p].rel != requests[i].rel)
  }

  lemma MentionsSplit(requests: seq<Request>, relid: Oid)
    requires requests != []
    ensures var n := |requests| - 1;
            Mentions(requests, relid) <==> Mentions(requests[..n], relid) || RelidOf(requests[n]) == relid
  {
    var n := |requests| - 1;
    if i :| 0 <= i < |requests| && RelidOf(requests[i]) == relid {
      assert i < n ==> RelidOf(requests[..n][i]) == relid;
    }
    if i :| 0 <= i < n && RelidOf(requests[..n][i]) == relid {
      assert RelidOf(requests[i]) == relid;
    }
  }

  lemma {:induction false} HistoryDomain(requests: seq<Request>, relid: Oid)
    ensures relid in HistoryAfter(requests) <==> Mentions(requests, relid)
    decreases |requests|
  {
    if requests == [] {
    } else {
      var n := |requests| - 1;
      HistoryDomain(requests[..n], relid);
      MentionsSplit(requests, relid);
    }
  }

  lemma {:induction false} HistoryIsLast(requests: seq<Request>, relid: Oid, i: nat)
    requires LastFor(requests, RelidOf, relid, i)
    ensures relid in HistoryAfter(requests) && HistoryAfter(requests)[relid].0 == requests[i].rel
    decreases |requests|
  {
    var n := |requests| - 1;
    if i == n {
    } else {
      assert LastFor(requests[..n], RelidOf, relid, i);
      HistoryIsLast(requests[..n], relid, i);
    }
  }

  // The request that settles a relation is the one whose build is remembered.
  lemma {:induction false} SettledIsKept(requests: seq<Request>, relid: Oid, i: nat)
    requires Settled(requests, relid, i)
    ensures relid in HistoryAfter(requests)
    ensures HistoryAfter(requests)[relid] == (requests[i].rel, requests[i].buildSucceeds)
    decreases |requests|
  {
    var n := |requests| - 1;
    var before := requests[..n];
    if i == n {
      HistoryDomain(before, relid);
      if Mentions(before, relid) {
        var p := LastForExists(before, RelidOf, relid);
        HistoryIsLast(before, relid, p);
      }
    } else {
      assert before[..i] == requests[..i];
      assert Settled(before, relid, i);
      SettledIsKept(before, relid, i);
    }
  }

  lemma {:induction false} SettledExists(requests: seq<Request>, relid: Oid) returns (i: nat)
    requires Mentions(requests, relid)
    ensures Settled(requests, relid, i)
    decreases |requests|
  {
    var n := |requests| - 1;
    var before := requests[..n];
    MentionsSplit(requests, relid);
    if Mentions(before, relid) {
      var p := LastForExists(before, RelidOf, relid);
      i := SettledExists(before, relid);
      assert before[..i] == requests[..i];
      if RelidOf(requests[n]) == relid && requests[p].rel != requests[n].rel {
        i := n;
      }
    } else {
      i := n;
      assert !exists p: nat :: LastFor(before, RelidOf, relid, p);
    }
  }

  /** Over any sequence of lookups, whichever builds fail: a lookup has schemas if
      and only if the build succeeded at the one lookup where the relation took on
      the description it has; later lookups make no difference. */
  lemma SchemasIff(requests: seq<Request>, rel: Relation, buildSucceeds: bool) returns (i: nat)
    ensures var all := requests + [Request(rel, buildSucceeds)];
            && Settled(all, rel.relid, i) && all[i].rel == rel
            && var h := Seen(HistoryAfter(requests), rel, buildSucceeds);
            && rel.relid in h && h[rel.relid] == (rel, all[i].buildSucceeds)
  {
    var all := requests + [Request(rel, buildSucceeds)];
    assert all[..|requests|] == requests;
    assert RelidOf(all[|requests|]) == rel.relid;
    i := SettledExists(all, rel.relid);
    SettledIsKept(all, rel.relid, i);
    assert i < |requests| ==> RelidOf(all[|requests|]) == rel.relid;
  }

  /** Over any sequence of lookups, the code says 2 the first time a relation is
      seen, 0 exactly when its description is the one of its previous lookup, and
      1 otherwise, negated if the build fails. If no build for this relation ever
      failed, the schemas in hand are the ones a fresh build would give. */
  lemma CacheTransparent(requests: seq<Request>, rel: Relation, buildSucceeds: bool)
    ensures var h, sign := HistoryAfter(requests), if buildSucceeds then 1 else -1;
            && (!Mentions(requests, rel.relid) <==> Code(h, rel, buildSucceeds) == sign * 2)
            && (forall i: nat :: LastFor(requests, RelidOf, rel.relid, i) ==>
                  Code(h, rel, buildSucceeds) == if requests[i].rel == rel then 0 else sign)
    ensures buildSucceeds
            && (forall j :: 0 <= j < |requests| && RelidOf(requests[j]) == rel.relid ==> requests[j].buildSucceeds) ==>
              var h' := Seen(HistoryAfter(requests), rel, buildSucceeds);
              rel.relid in h' && h'[rel.relid] == (rel, true)
  {
    HistoryDomain(requests, rel.relid);
    forall i: nat | LastFor(requests, RelidOf, rel.relid, i)
      ensures Code(HistoryAfter(requests), rel, buildSucceeds)
           == if requests[i].rel == rel then 0 else if buildSucceeds then 1 else -1
    {
      HistoryIsLast(requests, rel.relid, i);
    }
    var i := SchemasIff(requests, rel, buildSucceeds);
    assert i < |requests| ==> RelidOf(requests[i]) == rel.relid;
  }

  ghost function SeenAgain(h: History, rel: Relation, builds: seq<bool>): History {
    if builds == [] then h else Seen(SeenAgain(h, rel, builds[..|builds| - 1]), rel, builds[|builds| - 1])
  }

  /** A failed build is remembered as if it had succeeded: however often the same
      relation is looked up again, the answer is "unchanged", with no schemas. */
  lemma {:induction false} FailedBuildSticks(h: History, rel: Relation, builds: seq<bool>)
    requires rel.relid in h ==> h[rel.relid].0 != rel
    ensures Code(h, rel, false) < 0
    ensures var h' := SeenAgain(Seen(h, rel, false), rel, builds);
            && rel.relid in h' && h'[rel.relid] == (rel, false)
            && Code(h', rel, true) == 0
    decreases |builds|
  {
    if builds == [] {
    } else {
      FailedBuildSticks(h, rel, builds[..|builds| - 1]);
    }
  }
}
