/** Columns, dropped columns and Avro fields (ext/oid2avro.c): which column of a
    tuple the row encoder and the key encoder put into which field.

    A tuple comes with its own descriptor. In the stream it is the relation's; in
    the snapshot it is that of a result set, from which dropped columns are
    missing. The results here hold for any descriptor that differs from the
    relation's only by leaving out some dropped columns. */
module Columns {
  import opened Common
  import opened AvroName

  datatype Attr = Attr(name: Bytes, typid: Oid, typmod: int, dropped: bool)

  type TupleDesc = seq<Attr>

  // A record field, with the Postgres type its Avro type was made for.
  datatype Field = Field(name: Bytes, typid: Oid)

  datatype Schema = Schema(name: Bytes, namespace: Bytes, fields: seq<Field>, dummy: bool)

  // ---- descriptors with columns left out ----

  // The columns of `rel` that `keep` retains.
  ghost function Kept(rel: TupleDesc, keep: seq<bool>, n: nat): TupleDesc
    requires |keep| == |rel| && n <= |rel|
  {
    if n == 0 then []
    else Kept(rel, keep, n - 1) + (if keep[n - 1] then [rel[n - 1]] else [])
  }

  // Only dropped columns are left out.
  ghost predicate LeavesOutDropped(rel: TupleDesc, keep: seq<bool>) {
    && |keep| == |rel|
    && forall i :: 0 <= i < |rel| && !rel[i].dropped ==> keep[i]
  }

  ghost predicate DescOf(rel: TupleDesc, keep: seq<bool>, tup: TupleDesc) {
    LeavesOutDropped(rel, keep) && tup == Kept(rel, keep, |rel|)
  }

  // The two descriptors that occur.
  lemma {:induction false} OwnDescriptor(rel: TupleDesc, n: nat)
    requires n <= |rel|
    ensures Kept(rel, seq(|rel|, _ => true), n) == rel[..n]
  {
    if n == 0 {
    } else {
      OwnDescriptor(rel, n - 1);
      assert rel[..n] == rel[..n - 1] + [rel[n - 1]];
    }
  }

  ghost function NotDropped(rel: TupleDesc): (keep: seq<bool>)
    ensures LeavesOutDropped(rel, keep)
  {
    seq(|rel|, i requires 0 <= i < |rel| => !rel[i].dropped)
  }

  lemma {:induction false} SnapshotDescriptor(rel: TupleDesc, n: nat)
    requires n <= |rel|
    ensures Kept(rel, NotDropped(rel), n) == Live(rel[..n])
  {
    if n > 0 {
      SnapshotDescriptor(rel, n - 1);
      assert rel[..n] == rel[..n - 1] + [rel[n - 1]];
      LiveSnoc(rel[..n - 1], rel[n - 1]);
    } else {
      assert rel[..0] == [];
    }
  }

  // The live columns, in order.
  ghost function Live(desc: TupleDesc): seq<Attr> {
    if desc == [] then []
    else Live(desc[..|desc| - 1]) + (if desc[|desc| - 1].dropped then [] else [desc[|desc| - 1]])
  }

  lemma LiveSnoc(desc: TupleDesc, a: Attr)
    ensures Live(desc + [a]) == Live(desc) + (if a.dropped then [] else [a])
  {
  }

  lemma {:induction false} LivePrefix(desc: TupleDesc, n: nat)
    requires n <= |desc|
    ensures |Live(desc[..n])| <= |Live(desc)|
    ensures n < |desc| && !desc[n].dropped ==>
              |Live(desc[..n])| < |Live(desc)| && Live(desc)[|Live(desc[..n])|] == desc[n]
    ensures Live(desc)[..|Live(desc[..n])|] == Live(desc[..n])
    decreases |desc| - n
  {
    if n == |desc| {
      assert desc[..n] == desc;
    } else {
      LivePrefix(desc, n + 1);
      assert desc[..n + 1] == desc[..n] + [desc[n]];
      LiveSnoc(desc[..n], desc[n]);
      var k := |Live(desc[..n])|;
      assert Live(desc)[..k] == Live(desc)[..|Live(desc[..n + 1])|][..k];
    }
  }

  /** Leaving out dropped columns does not change which columns are live. */
  lemma {:induction false} SameLiveColumns(rel: TupleDesc, keep: seq<bool>, n: nat)
    requires LeavesOutDropped(rel, keep) && n <= |rel|
    ensures Live(Kept(rel, keep, n)) == Live(rel[..n])
  {
    if n > 0 {
      SameLiveColumns(rel, keep, n - 1);
      assert rel[..n] == rel[..n - 1] + [rel[n - 1]];
      LiveSnoc(rel[..n - 1], rel[n - 1]);
      if keep[n - 1] {
        LiveSnoc(Kept(rel, keep, n - 1), rel[n - 1]);
      } else {
        assert Kept(rel, keep, n) == Kept(rel, keep, n - 1);
      }
    } else {
      assert rel[..0] == [];
    }
  }

  // ---- the row schema ----

  ghost function FieldsFor(cols: seq<Attr>): (fs: seq<Field>)
    ensures |fs| == |cols|
  {
    seq(|cols|, i requires 0 <= i < |cols| => Field(Escape(cols[i].name, false), cols[i].typid))
  }

  lemma FieldsForSnoc(cols: seq<Attr>, a: Attr)
    ensures FieldsFor(cols + [a]) == FieldsFor(cols) + [Field(Escape(a.name, false), a.typid)]
  {
  }

  lemma {:induction false} LiveEmpty(desc: TupleDesc)
    ensures Live(desc) == [] <==> forall i :: 0 <= i < |desc| ==> desc[i].dropped
    decreases |desc|
  {
    if desc == [] {
    } else {
      var n := |desc| - 1;
      LiveEmpty(desc[..n]);
      assert (forall i :: 0 <= i < |desc| ==> desc[i].dropped)
          <==> desc[n].dropped && forall i :: 0 <= i < n ==> desc[..n][i].dropped;
    }
  }

  // Postgres identifiers are never empty.
  ghost predicate Named(desc: TupleDesc) {
    forall i :: 0 <= i < |desc| ==> desc[i].name != []
  }

  /** One field per live column, in column order. The library accepts a field
      whose name is a valid Avro name, so the build cannot fail on a name. The
      placeholder field is added only for a descriptor without any columns, not
      for one whose columns are all dropped. */
  method SchemaForTableRow(relname: Bytes, namespace: Bytes, desc: TupleDesc) returns (ok: bool, schema: Schema)
    requires relname != [] && Named(desc)
    ensures ok && ValidName(schema.name)
    ensures schema == Schema(Escape(relname, false), Escape(namespace, true), FieldsFor(Live(desc)), desc == [])
    ensures schema.fields == [] && !schema.dummy <==> desc != [] && forall i :: 0 <= i < |desc| ==> desc[i].dropped
  {
    var name := MakeAvroSafe(relname, false);
    var ns := MakeAvroSafe(namespace, true);
    EscapeIsValid(relname);
    var fields := [];
    ok := true;
    for i := 0 to |desc|
      invariant ok && fields == FieldsFor(Live(desc[..i]))
    {
      assert desc[..i + 1] == desc[..i] + [desc[i]];
      LiveSnoc(desc[..i], desc[i]);
      if desc[i].dropped {
        assert Live(desc[..i + 1]) == Live(desc[..i]);
        continue;
      }
      FieldsForSnoc(Live(desc[..i]), desc[i]);
      var fieldName := MakeAvroSafe(desc[i].name, false);
      EscapeIsValid(desc[i].name);
      if !ValidName(fieldName) {
        ok := false;
        break;
      }
      fields := fields + [Field(fieldName, desc[i].typid)];
    }
    assert desc[..|desc|] == desc;
    schema := Schema(name, ns, fields, desc == []);
    LiveEmpty(desc);
  }

  // ---- the row encoder ----

  // A value, with the type it is encoded as; none for SQL null.
  datatype FieldValue<D> = FieldValue(typid: Oid, datum: Option<D>)

  // The values of the live columns, in order.
  ghost function LiveValues<D>(desc: TupleDesc, tuple: seq<Option<D>>): seq<FieldValue<D>>
    requires |tuple| == |desc|
  {
    if desc == [] then []
    else
      var n := |desc| - 1;
      LiveValues(desc[..n], tuple[..n]) + (if desc[n].dropped then [] else [FieldValue(desc[n].typid, tuple[n])])
  }

  lemma LiveValuesSnoc<D>(desc: TupleDesc, tuple: seq<Option<D>>, a: Attr, d: Option<D>)
    requires |tuple| == |desc|
    ensures LiveValues(desc + [a], tuple + [d])
            == LiveValues(desc, tuple) + (if a.dropped then [] else [FieldValue(a.typid, d)])
  {
  }

  lemma {:induction false} LiveValuesAlign<D>(desc: TupleDesc, tuple: seq<Option<D>>)
    requires |tuple| == |desc|
    ensures |LiveValues(desc, tuple)| == |Live(desc)|
    ensures forall k :: 0 <= k < |Live(desc)| ==> LiveValues(desc, tuple)[k].typid == Live(desc)[k].typid
    decreases |desc|
  {
    if desc == [] {
    } else {
      var n := |desc| - 1;
      LiveValuesAlign(desc[..n], tuple[..n]);
    }
  }

  lemma {:induction false} LiveValuesAt<D>(desc: TupleDesc, tuple: seq<Option<D>>, p: nat)
    requires |tuple| == |desc| && p < |desc| && !desc[p].dropped
    ensures |Live(desc[..p])| < |LiveValues(desc, tuple)|
    ensures LiveValues(desc, tuple)[|Live(desc[..p])|] == FieldValue(desc[p].typid, tuple[p])
    decreases |desc|
  {
    var n := |desc| - 1;
    if p == n {
      LiveValuesAlign(desc[..n], tuple[..n]);
    } else {
      LiveValuesAt(desc[..n], tuple[..n], p);
      assert desc[..n][..p] == desc[..p];
    }
  }

  /** Column `i` of the relation, if live, is field `k` of the schema, where `k`
      counts the live columns before it; and field `k` of an encoded tuple is the
      value at that column's position in the tuple. */
  lemma FieldColumn<D>(rel: TupleDesc, keep: seq<bool>, desc: TupleDesc, tuple: seq<Option<D>>, i: nat)
    requires DescOf(rel, keep, desc) && |tuple| == |desc|
    requires i < |rel| && !rel[i].dropped
    ensures var k, p := |Live(rel[..i])|, |Kept(rel, keep, i)|;
            && p < |desc| && desc[p] == rel[i]
            && k < |Live(rel)| && FieldsFor(Live(rel))[k] == Field(Escape(rel[i].name, false), rel[i].typid)
            && k < |LiveValues(desc, tuple)| && LiveValues(desc, tuple)[k] == FieldValue(rel[i].typid, tuple[p])
  {
    var p := |Kept(rel, keep, i)|;
    LivePrefix(rel, i);
    KeptAt(rel, keep, i, |rel|);
    KeptPrefix(rel, keep, i, |rel|);
    SameLiveColumns(rel, keep, i);
    LiveValuesAt(desc, tuple, p);
  }

  lemma {:induction false} KeptPrefix(rel: TupleDesc, keep: seq<bool>, i: nat, n: nat)
    requires |keep| == |rel| && i <= n <= |rel|
    ensures |Kept(rel, keep, i)| <= |Kept(rel, keep, n)|
    ensures Kept(rel, keep, n)[..|Kept(rel, keep, i)|] == Kept(rel, keep, i)
    decreases n
  {
    if i == n {
    } else {
      KeptPrefix(rel, keep, i, n - 1);
      assert Kept(rel, keep, n)[..|Kept(rel, keep, i)|] == Kept(rel, keep, n - 1)[..|Kept(rel, keep, i)|];
    }
  }

  /** Writes the tuple's live columns into consecutive fields of the row value,
      never past the last field of the relation's schema, and always a value of
      the Postgres type that field was made for. */
  method TupleToAvroRow<D>(ghost rel: TupleDesc, ghost keep: seq<bool>, desc: TupleDesc, tuple: seq<Option<D>>,
                           schemaFields: seq<Field>)
    returns (output: seq<FieldValue<D>>)
    requires DescOf(rel, keep, desc) && |tuple| == |desc|
    requires schemaFields == FieldsFor(Live(rel))
    ensures output == LiveValues(desc, tuple)
    ensures |output| == |schemaFields|
    ensures forall k :: 0 <= k < |output| ==> output[k].typid == schemaFields[k].typid
  {
    SameLiveColumns(rel, keep, |rel|);
    assert rel[..|rel|] == rel;
    output := [];
    var field := 0;
    for i := 0 to |desc|
      invariant field == |output| == |Live(desc[..i])|
      invariant output == LiveValues(desc[..i], tuple[..i])
    {
      assert desc[..i + 1] == desc[..i] + [desc[i]] && tuple[..i + 1] == tuple[..i] + [tuple[i]];
      LiveSnoc(desc[..i], desc[i]);
      LiveValuesSnoc(desc[..i], tuple[..i], desc[i], tuple[i]);
      LivePrefix(desc, i);
      if desc[i].dropped { continue; }
      assert schemaFields[field].typid == desc[i].typid;
      output := output + [FieldValue(desc[i].typid, tuple[i])];
      field := field + 1;
    }
    assert desc[..|desc|] == desc && tuple[..|desc|] == tuple;
    LiveValuesAlign(desc, tuple);
  }

  // ---- the key encoder ----

  lemma {:induction false} KeptAt(rel: TupleDesc, keep: seq<bool>, i: nat, n: nat)
    requires |keep| == |rel| && i < n <= |rel| && keep[i]
    ensures |Kept(rel, keep, i)| < |Kept(rel, keep, n)|
    ensures Kept(rel, keep, n)[|Kept(rel, keep, i)|] == rel[i]
    decreases n
  {
    if i + 1 == n {
    } else {
      KeptAt(rel, keep, i, n - 1);
    }
  }

  /** Finds the position of an indexed column in a tuple that may leave out any of
      the relation's dropped columns: the search stays within the descriptor and
      ends on exactly that column. */
  method FindKeyColumn(rel: TupleDesc, ghost keep: seq<bool>, tup: TupleDesc, attnum: nat) returns (tupI: nat)
    requires DescOf(rel, keep, tup)
    requires attnum < |rel| && !rel[attnum].dropped
    ensures tupI < |tup| && tup[tupI] == rel[attnum]
    ensures tupI == |Kept(rel, keep, attnum)|
  {
    KeptAt(rel, keep, attnum, |rel|);
    tupI := 0;
    for relI := 0 to attnum
      invariant |Kept(rel, keep, relI)| <= tupI <= |Kept(rel, keep, attnum)|
      invariant forall j :: |Kept(rel, keep, relI)| <= j < tupI ==> tup[j].dropped
    {
      KeptPrefix(rel, keep, relI, attnum);
      KeptPrefix(rel, keep, relI + 1, attnum);
      if keep[relI] {
        KeptAt(rel, keep, relI, |rel|);
      }
      if !rel[relI].dropped || tup[tupI].dropped {
        tupI := tupI + 1;
      }
    }
  }

  // The catalog's description of an index: column `f` of the index is column
  // `indkey[f]` of the relation, counted from one; neither is dropped.
  ghost predicate Indexes(rel: TupleDesc, index: TupleDesc, indkey: seq<nat>) {
    && |index| == |indkey|
    && forall f :: 0 <= f < |indkey| ==>
         && 1 <= indkey[f] <= |rel| && !rel[indkey[f] - 1].dropped
         && !index[f].dropped && index[f].typid == rel[indkey[f] - 1].typid
  }

  lemma {:induction false} NoneDropped(desc: TupleDesc)
    requires forall i :: 0 <= i < |desc| ==> !desc[i].dropped
    ensures Live(desc) == desc
    decreases |desc|
  {
    if desc == [] {
    } else {
      NoneDropped(desc[..|desc| - 1]);
    }
  }

  // The value of column `attnum` of the relation, from the tuple's own position.
  ghost predicate IsColumnValue<D>(rel: TupleDesc, keep: seq<bool>, tuple: seq<Option<D>>, attnum: int,
                                   v: FieldValue<D>)
  {
    && |keep| == |rel| && 0 <= attnum < |rel|
    && |Kept(rel, keep, attnum)| < |tuple|
    && v == FieldValue(rel[attnum].typid, tuple[|Kept(rel, keep, attnum)|])
  }

  method KeyField<D>(rel: TupleDesc, ghost keep: seq<bool>, tup: TupleDesc, tuple: seq<Option<D>>, attnum: nat)
    returns (v: FieldValue<D>)
    requires DescOf(rel, keep, tup) && |tuple| == |tup|
    requires attnum < |rel| && !rel[attnum].dropped
    ensures IsColumnValue(rel, keep, tuple, attnum, v)
  {
    var tupI := FindKeyColumn(rel, keep, tup, attnum);
    v := FieldValue(tup[tupI].typid, tuple[tupI]);
  }

  lemma KeyTypes<D>(rel: TupleDesc, keep: seq<bool>, tuple: seq<Option<D>>, index: TupleDesc, indkey: seq<nat>,
                    values: seq<FieldValue<D>>)
    requires Indexes(rel, index, indkey) && |values| == |indkey|
    requires forall f :: 0 <= f < |indkey| ==> IsColumnValue(rel, keep, tuple, indkey[f] - 1, values[f])
    ensures |FieldsFor(Live(index))| == |values|
    ensures forall f :: 0 <= f < |values| ==> values[f].typid == FieldsFor(Live(index))[f].typid
  {
    NoneDropped(index);
  }

  /** Encodes the indexed columns, in index order, from the tuple's own positions:
      each is the value of the indexed column of the relation. They fill the key
      schema exactly, each of the Postgres type its field was made for. */
  method TupleToAvroKey<D>(rel: TupleDesc, ghost keep: seq<bool>, tup: TupleDesc, tuple: seq<Option<D>>,
                           ghost index: TupleDesc, indkey: seq<nat>, schemaFields: seq<Field>)
    returns (output: seq<FieldValue<D>>)
    requires DescOf(rel, keep, tup) && |tuple| == |tup|
    requires Indexes(rel, index, indkey) && schemaFields == FieldsFor(Live(index))
    ensures |output| == |schemaFields| == |indkey|
    ensures forall f :: 0 <= f < |output| ==> output[f].typid == schemaFields[f].typid
    ensures forall f :: 0 <= f < |indkey| ==> IsColumnValue(rel, keep, tuple, indkey[f] - 1, output[f])
  {
    output := [];
    for field := 0 to |indkey|
      invariant |output| == field
      invariant forall f :: 0 <= f < field ==> IsColumnValue(rel, keep, tuple, indkey[f] - 1, output[f])
    {
      var v := KeyField(rel, keep, tup, tuple, indkey[field] - 1);
      output := output + [v];
    }
    KeyTypes(rel, keep, tuple, index, indkey, output);
  }
}
