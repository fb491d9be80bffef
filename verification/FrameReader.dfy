/** The client's side of the wire protocol (client/protocol_client.c): the list of
    table schemas received so far, and what is made of each message. */
module FrameReader {
  import opened Common
  import opened Wire

  datatype ListEntry<S> = ListEntry(relid: Oid, key: Option<S>, row: S)

  // What the reader does with a message.
  datatype Reading<S> =
    | Stored                              // schemas recorded
    | Skipped                             // row of a table outside the active list
    | Unknown                             // row of a table without recorded schemas
    | Garbled(key: Option<S>, row: S)     // row that does not decode with these schemas
    | Decoded(key: Option<S>, row: S)     // row decoded with these schemas

  // ---- the list as a map ----

  ghost predicate Distinct<S>(list: seq<ListEntry<S>>) {
    forall i, j :: 0 <= i < j < |list| ==> list[i].relid != list[j].relid
  }

  ghost function AsMap<S>(list: seq<ListEntry<S>>): map<Oid, ListEntry<S>> {
    if list == [] then map[]
    else AsMap(list[..|list| - 1])[list[|list| - 1].relid := list[|list| - 1]]
  }

  lemma {:induction false} AsMapHas<S>(list: seq<ListEntry<S>>)
    requires Distinct(list)
    ensures forall i :: 0 <= i < |list| ==> list[i].relid in AsMap(list) && AsMap(list)[list[i].relid] == list[i]
    ensures forall id :: id in AsMap(list) ==> exists i :: 0 <= i < |list| && list[i].relid == id
    decreases |list|
  {
    if list == [] {
    } else {
      var before := list[..|list| - 1];
      AsMapHas(before);
      forall id | id in AsMap(list)
        ensures exists i :: 0 <= i < |list| && list[i].relid == id
      {
        if id == list[|list| - 1].relid {
        } else {
          var i :| 0 <= i < |before| && before[i].relid == id;
          assert list[i].relid == id;
        }
      }
    }
  }

  lemma AsMapUpdated<S>(list: seq<ListEntry<S>>, i: nat, e: ListEntry<S>)
    requires Distinct(list) && i < |list| && list[i].relid == e.relid
    ensures Distinct(list[i := e]) && AsMap(list[i := e]) == AsMap(list)[e.relid := e]
  {
    var list' := list[i := e];
    assert Distinct(list');
    AsMapHas(list);
    AsMapHas(list');
    var m, m' := AsMap(list)[e.relid := e], AsMap(list');
    forall id
      ensures id in m <==> id in m'
      ensures id in m ==> m[id] == m'[id]
    {
      if id in m {
        var j :| 0 <= j < |list| && list[j].relid == id;
        assert list'[j].relid == id;
      }
      if id in m' {
        var j :| 0 <= j < |list'| && list'[j].relid == id;
        assert list[j].relid == id;
      }
    }
  }

  lemma AsMapAppended<S>(list: seq<ListEntry<S>>, e: ListEntry<S>)
    requires Distinct(list) && forall i :: 0 <= i < |list| ==> list[i].relid != e.relid
    ensures Distinct(list + [e]) && AsMap(list + [e]) == AsMap(list)[e.relid := e]
  {
  }

  // ---- reading messages, as values ----

  // Whether the library can decode a row message with a table's schemas.
  type Decoder<!S, !B> = (ListEntry<S>, Message<S, B>) -> bool

  ghost function Read<S, B>(m: map<Oid, ListEntry<S>>, active: seq<Oid>, decodes: Decoder<S, B>, msg: Message<S, B>)
    : (map<Oid, ListEntry<S>>, Reading<S>)
  {
    match msg
    case TableSchema(relid, key, row) => (m[relid := ListEntry(relid, key, row)], Stored)
    case _ =>
      (m, if msg.relid !in active then Skipped
          else if msg.relid !in m then Unknown
          else if decodes(m[msg.relid], msg) then Decoded(m[msg.relid].key, m[msg.relid].row)
          else Garbled(m[msg.relid].key, m[msg.relid].row))
  }

  // A reading is an error, or the callback that was told of the schemas or the row
  // reports one.
  predicate Bad<S>(reading: Reading<S>, accepted: bool) {
    reading.Unknown? || reading.Garbled? || ((reading.Stored? || reading.Decoded?) && !accepted)
  }

  ghost function ReadFrame<S, B>(m: map<Oid, ListEntry<S>>, active: seq<Oid>, decodes: Decoder<S, B>,
                                 frame: seq<Message<S, B>>)
    : (map<Oid, ListEntry<S>>, seq<Reading<S>>)
  {
    if frame == [] then (m, [])
    else
      var last := |frame| - 1;
      var (m1, rs) := ReadFrame(m, active, decodes, frame[..last]);
      var (m2, r) := Read(m1, active, decodes, frame[last]);
      (m2, rs + [r])
  }

  lemma ReadFrameSnoc<S, B>(m: map<Oid, ListEntry<S>>, active: seq<Oid>, decodes: Decoder<S, B>,
                            frame: seq<Message<S, B>>, msg: Message<S, B>)
    ensures var (m1, rs) := ReadFrame(m, active, decodes, frame);
            var (m2, r) := Read(m1, active, decodes, msg);
            ReadFrame(m, active, decodes, frame + [msg]) == (m2, rs + [r])
  {
  }

  // ---- the reader ----

  const INITIAL_CAPACITY: nat := 16

  // An array four times as long with the same elements first.
  method Enlarged<T>(a: array<T>, filler: T) returns (bigger: array<T>)
    ensures fresh(bigger) && bigger.Length == a.Length * 4 && bigger[..a.Length] == a[..]
  {
    bigger := new T[a.Length * 4](_ => filler);
    for j := 0 to a.Length
      modifies bigger
      invariant bigger[..j] == a[..j]
    {
      bigger[j] := a[j];
    }
  }

  class Reader<S(==), B> {
    const decodes: Decoder<S, B>
    const exitOnError: bool
    var schemas: array<ListEntry<S>>    // its length is the capacity
    var numSchemas: nat
    var active: seq<Oid>

    ghost predicate Valid()
      reads this, schemas
    {
      && numSchemas <= schemas.Length && 0 < schemas.Length
      && Distinct(schemas[..numSchemas])
    }

    ghost function Known(): map<Oid, ListEntry<S>>
      reads this, schemas
      requires Valid()
    {
      AsMap(schemas[..numSchemas])
    }

    constructor (blank: ListEntry<S>, library: Decoder<S, B>, exitPolicy: bool)
      ensures Valid() && fresh(schemas) && Known() == map[] && active == []
      ensures decodes == library && exitOnError == exitPolicy
    {
      decodes, exitOnError := library, exitPolicy;
      schemas := new ListEntry<S>[INITIAL_CAPACITY](_ => blank);
      numSchemas, active := 0, [];
    }

    method SchemaListLookup(relid: Oid) returns (found: int)
      requires Valid()
      ensures found < 0 ==> relid !in Known() && forall i :: 0 <= i < numSchemas ==> schemas[i].relid != relid
      ensures 0 <= found ==>
                && found < numSchemas && schemas[found].relid == relid
                && relid in Known() && Known()[relid] == schemas[found]
    {
      AsMapHas(schemas[..numSchemas]);
      var i := 0;
      while i < numSchemas
        invariant 0 <= i <= numSchemas
        invariant forall j :: 0 <= j < i ==> schemas[j].relid != relid
      {
        if schemas[i].relid == relid {
          assert schemas[..numSchemas][i].relid == relid;
          return i;
        }
        i := i + 1;
      }
      found := -1;
    }

    /** Records the schemas under the relid, in place if it is known already; no
        other table's schemas change. */
    method ProcessTableSchema(relid: Oid, key: Option<S>, row: S)
      requires Valid()
      modifies this, schemas
      ensures Valid() && Known() == old(Known())[relid := ListEntry(relid, key, row)]
      ensures active == old(active) && (schemas == old(schemas) || fresh(schemas))
    {
      var entry := ListEntry(relid, key, row);
      ghost var list := schemas[..numSchemas];
      var i := SchemaListLookup(relid);
      if 0 <= i {
        schemas[i] := entry;
        assert schemas[..numSchemas] == list[i := entry];
        AsMapUpdated(list, i, entry);
      } else {
        assert forall j :: 0 <= j < |list| ==> list[j].relid != relid;
        if numSchemas == schemas.Length {
          var bigger := Enlarged(schemas, entry);
          schemas := bigger;
        }
        schemas[numSchemas] := entry;
        numSchemas := numSchemas + 1;
        assert schemas[..numSchemas] == list + [entry];
        AsMapAppended(list, entry);
      }
    }

    method IsActive(relid: Oid) returns (found: bool)
      ensures found <==> relid in active
    {
      found := false;
      for i := 0 to |active|
        invariant !found && relid !in active[..i]
      {
        if active[i] == relid {
          found := true;
          break;
        }
      }
    }

    /** Records schemas or decodes a row, and tells the callback, which may refuse. Rows
        outside the active list are skipped before anything is looked up. An error
        is passed on under the exit policy; under the log policy a row that does
        not decode is handed to the callback like any other. */
    method ProcessMessage(msg: Message<S, B>, accepted: bool) returns (reading: Reading<S>, err: bool)
      requires Valid()
      modifies this, schemas
      ensures Valid() && active == old(active) && (schemas == old(schemas) || fresh(schemas))
      ensures (Known(), reading) == Read(old(Known()), active, decodes, msg)
      ensures msg.TableSchema? ==>
                && reading.Stored?
                && Known() == old(Known())[msg.relid := ListEntry(msg.relid, msg.keySchema, msg.rowSchema)]
      ensures !msg.TableSchema? ==> Known() == old(Known())
      ensures !msg.TableSchema? && msg.relid !in active ==> reading.Skipped?
      ensures !msg.TableSchema? && msg.relid in active && msg.relid !in Known() ==> reading.Unknown?
      ensures !msg.TableSchema? && msg.relid in active && msg.relid in Known() ==>
                var entry := Known()[msg.relid];
                reading == if decodes(entry, msg) then Decoded(entry.key, entry.row) else Garbled(entry.key, entry.row)
      ensures err <==>
                exitOnError && !reading.Skipped? && (accepted ==> reading.Unknown? || reading.Garbled?)
    {
      match msg {
        case TableSchema(relid, key, row) =>
          ProcessTableSchema(relid, key, row);
          reading := Stored;
        case _ =>
          var isActive := IsActive(msg.relid);
          if !isActive {
            return Skipped, false;
          }
          var i := SchemaListLookup(msg.relid);
          if i < 0 {
            reading := Unknown;
          } else {
            var entry := schemas[i];
            reading := if decodes(entry, msg) then Decoded(entry.key, entry.row) else Garbled(entry.key, entry.row);
          }
      }
      err := exitOnError && Bad(reading, accepted);
    }

    /** Handles the messages of a frame one after the other: all of them under the
        log policy, and up to the first error under the exit policy. */
    method ProcessFrame(frame: seq<Message<S, B>>, accepted: seq<bool>) returns (readings: seq<Reading<S>>, err: bool)
      requires Valid() && |accepted| == |frame|
      modifies this, schemas
      ensures Valid() && active == old(active) && (schemas == old(schemas) || fresh(schemas))
      ensures |readings| <= |frame|
      ensures (Known(), readings) == ReadFrame(old(Known()), active, decodes, frame[..|readings|])
      ensures !err ==> |readings| == |frame|
      ensures exitOnError ==>
                forall i :: 0 <= i < |readings| - (if err then 1 else 0) ==>
                  readings[i].Skipped? || (accepted[i] && (readings[i].Stored? || readings[i].Decoded?))
      ensures err ==>
                && exitOnError && readings != []
                && var last := |readings| - 1;
                && !readings[last].Skipped?
                && (accepted[last] ==> readings[last].Unknown? || readings[last].Garbled?)
    {
      readings, err := [], false;
      for i := 0 to |frame|
        invariant Valid() && active == old(active) && (schemas == old(schemas) || fresh(schemas))
        invariant !err && |readings| == i
        invariant (Known(), readings) == ReadFrame(old(Known()), active, decodes, frame[..i])
        invariant exitOnError ==> forall j :: 0 <= j < i ==> !Bad(readings[j], accepted[j])
      {
        var r;
        r, err := ProcessMessage(frame[i], accepted[i]);
        ReadFrameSnoc(old(Known()), active, decodes, frame[..i], frame[i]);
        assert frame[..i + 1] == frame[..i] + [frame[i]];
        readings := readings + [r];
        if err {
          return;
        }
      }
    }
  }
}
