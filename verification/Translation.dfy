/** Row changes keep their meaning: compacting the records that a sequence of
    inserts, updates and deletes gives rise to yields the table itself, each row
    under its encoded key, as it was encoded when it was last written. The schemas
    may change between any two changes. */
module Translation {
  import opened Common
  import opened Wire

  datatype Tuple<K, R> = Tuple(key: K, row: R)

  // A change as logical decoding reports it. `target` is the key of the row that
  // Postgres changes; `old` is the old tuple, which the replica identity may
  // leave out.
  datatype Op<K, R> =
    | InsertOp(newTuple: Tuple<K, R>)
    | UpdateOp(target: K, oldTuple: Option<Tuple<K, R>>, newTuple: Tuple<K, R>)
    | DeleteOp(target: K, oldTuple: Option<Tuple<K, R>>)

  // The key and row encodings of one table under one pair of schemas.
  datatype Codec<!K, !R, !B> = Codec(key: K -> B, row: R -> B)

  // A change, and the encodings in force when it is made.
  datatype Change<!K, !R, !B> = Change(op: Op<K, R>, codec: Codec<K, R, B>)

  // ---- the table ----

  predicate Valid<K, R>(t: map<K, R>, op: Op<K, R>) {
    match op
    case InsertOp(n) => n.key !in t
    case UpdateOp(k, o, n) => k in t && (n.key == k || n.key !in t) && (o.Some? ==> o.value.key == k)
    case DeleteOp(k, o) => k in t && (o.Some? ==> o.value.key == k)
  }

  function After<K, R>(t: map<K, R>, op: Op<K, R>): map<K, R> {
    match op
    case InsertOp(n) => t[n.key := n.row]
    case UpdateOp(k, _, n) => (t - {k})[n.key := n.row]
    case DeleteOp(k, _) => t - {k}
  }

  ghost predicate ValidFrom<K, R, B>(t: map<K, R>, changes: seq<Change<K, R, B>>)
    decreases |changes|
  {
    changes == [] || (Valid(t, changes[0].op) && ValidFrom(After(t, changes[0].op), changes[1..]))
  }

  ghost function TableAfter<K, R, B>(t: map<K, R>, changes: seq<Change<K, R, B>>): map<K, R>
    decreases |changes|
  {
    if changes == [] then t else TableAfter(After(t, changes[0].op), changes[1..])
  }

  // ---- how the rows were written ----

  // A row of the table, with its key and itself as encoded when it was last written.
  datatype Image<R, B> = Image(row: R, key: B, value: B)

  ghost function Written<K, R, B>(c: Codec<K, R, B>, n: Tuple<K, R>): Image<R, B> {
    Image(n.row, c.key(n.key), c.row(n.row))
  }

  ghost function ImageAfter<K, R, B>(t: map<K, Image<R, B>>, ch: Change<K, R, B>): map<K, Image<R, B>> {
    match ch.op
    case InsertOp(n) => t[n.key := Written(ch.codec, n)]
    case UpdateOp(k, _, n) => (t - {k})[n.key := Written(ch.codec, n)]
    case DeleteOp(k, _) => t - {k}
  }

  ghost function ImagesAfter<K, R, B>(t: map<K, Image<R, B>>, changes: seq<Change<K, R, B>>): map<K, Image<R, B>>
    decreases |changes|
  {
    if changes == [] then t else ImagesAfter(ImageAfter(t, changes[0]), changes[1..])
  }

  ghost function Rows<K, R, B>(t: map<K, Image<R, B>>): map<K, R> {
    map k | k in t :: t[k].row
  }

  lemma RowsStep<K, R, B>(t: map<K, Image<R, B>>, ch: Change<K, R, B>)
    ensures Rows(ImageAfter(t, ch)) == After(Rows(t), ch.op)
  {
  }

  // Leaving the encodings aside, the images are the table.
  lemma {:induction false} RowsAfter<K, R, B>(t: map<K, Image<R, B>>, changes: seq<Change<K, R, B>>)
    ensures Rows(ImagesAfter(t, changes)) == TableAfter(Rows(t), changes)
    decreases |changes|
  {
    if changes == [] {
    } else {
      RowsStep(t, changes[0]);
      RowsAfter(ImageAfter(t, changes[0]), changes[1..]);
    }
  }

  predicate Writes<K(==), R, B>(ch: Change<K, R, B>, k: K) {
    !ch.op.DeleteOp? && ch.op.newTuple.key == k
  }

  ghost predicate LastWrite<K, R, B>(changes: seq<Change<K, R, B>>, k: K, i: nat) {
    && i < |changes| && Writes(changes[i], k)
    && forall j :: i < j < |changes| ==> !Writes(changes[j], k)
  }

  // A row's image is what its last write made it, or the one it had before.
  lemma {:induction false} ImageIsLastWrite<K, R, B>(t: map<K, Image<R, B>>, changes: seq<Change<K, R, B>>, k: K)
    returns (i: nat)
    requires k in ImagesAfter(t, changes)
    ensures i <= |changes|
    ensures i < |changes| ==>
              && LastWrite(changes, k, i)
              && ImagesAfter(t, changes)[k] == Written(changes[i].codec, changes[i].op.newTuple)
    ensures i == |changes| ==>
              && (forall j :: 0 <= j < |changes| ==> !Writes(changes[j], k))
              && k in t && ImagesAfter(t, changes)[k] == t[k]
    decreases |changes|
  {
    if changes == [] {
      i := 0;
    } else {
      var rest := changes[1..];
      var r := ImageIsLastWrite(ImageAfter(t, changes[0]), rest, k);
      assert forall j :: 1 <= j < |changes| ==> changes[j] == rest[j - 1];
      i := if r == |rest| && Writes(changes[0], k) then 0 else r + 1;
    }
  }

  // ---- the messages ----

  function Messages<S, K, R, B(==)>(relid: Oid, ch: Change<K, R, B>): seq<Message<S, B>> {
    var c := ch.codec;
    match ch.op
    case InsertOp(n) => [Insert(relid, Some(c.key(n.key)), c.row(n.row))]
    case UpdateOp(_, o, n) =>
      UpdateMessages(relid, MapKey(c, o), MapRow(c, o), Some(c.key(n.key)), c.row(n.row))
    case DeleteOp(_, o) => [Delete(relid, MapKey(c, o), MapRow(c, o))]
  }

  function MapKey<K, R, B>(c: Codec<K, R, B>, o: Option<Tuple<K, R>>): Option<B> {
    if o.Some? then Some(c.key(o.value.key)) else None
  }

  function MapRow<K, R, B>(c: Codec<K, R, B>, o: Option<Tuple<K, R>>): Option<B> {
    if o.Some? then Some(c.row(o.value.row)) else None
  }

  // ---- agreement ----

  // Keys that differ are encoded differently, whenever they are.
  ghost predicate Injective<K(!new), R, B>(changes: seq<Change<K, R, B>>) {
    forall i, j, a, b ::
      0 <= i < |changes| && 0 <= j < |changes| && changes[i].codec.key(a) == changes[j].codec.key(b) ==> a == b
  }

  // The codec gives no key the bytes that another row was written under.
  ghost predicate NoClash<K(!new), R, B>(t: map<K, Image<R, B>>, c: Codec<K, R, B>) {
    forall k, a :: k in t && t[k].key == c.key(a) ==> a == k
  }

  // The topic holds exactly the table's rows, as they were written; no two of them
  // under the same bytes.
  ghost predicate Agree<K, R, B>(t: map<K, Image<R, B>>, m: map<B, B>) {
    && (forall k :: k in t ==> t[k].key in m && m[t[k].key] == t[k].value)
    && (forall b :: b in m ==> exists k :: k in t && t[k].key == b)
    && (forall j, k :: j in t && k in t && t[j].key == t[k].key ==> j == k)
  }

  // The old tuple is present whenever the old key disappears.
  predicate CarriesOld<K(==), R>(op: Op<K, R>) {
    match op
    case InsertOp(_) => true
    case UpdateOp(k, o, n) => n.key == k || o.Some?
    case DeleteOp(_, o) => o.Some?
  }

  // The change carries what it takes to find the row's record: the old tuple
  // wherever the old key disappears, and a codec that encodes the row's key as when
  // the row was last written.
  ghost predicate FindsOld<K, R, B>(t: map<K, Image<R, B>>, ch: Change<K, R, B>) {
    && CarriesOld(ch.op)
    && (ch.op.InsertOp? || (ch.op.target in t && ch.codec.key(ch.op.target) == t[ch.op.target].key))
  }

  function AppliedAll<B>(m: map<B, B>, rs: seq<Record<B>>): map<B, B>
    decreases |rs|
  {
    if rs == [] then m else AppliedAll(Applied(m, rs[0]), rs[1..])
  }

  lemma {:induction false} CompactConcat<B>(a: seq<Record<B>>, b: seq<Record<B>>)
    ensures Compact(a + b) == AppliedAll(Compact(a), b)
    decreases |b|
  {
    if b == [] {
      assert a + b == a;
    } else {
      assert a + b == (a + [b[0]]) + b[1..];
      CompactSnoc(a, b[0]);
      CompactConcat(a + [b[0]], b[1..]);
    }
  }

  lemma AppliedShort<B>(m: map<B, B>, r: Record<B>, q: Record<B>)
    ensures AppliedAll(m, [r]) == Applied(m, r)
    ensures AppliedAll(m, [r, q]) == Applied(Applied(m, r), q)
  {
    assert [r][1..] == [] && [r, q][1..] == [q] && [q][1..] == [];
    assert AppliedAll(Applied(m, r), [q]) == Applied(Applied(m, r), q);
  }

  // The records of one change.
  ghost function RecordsOfOp<K, R, B>(c: Codec<K, R, B>, op: Op<K, R>): seq<Record<B>> {
    match op
    case InsertOp(n) => [Record(Some(c.key(n.key)), Some(c.row(n.row)))]
    case UpdateOp(_, o, n) =>
      if o.Some? && c.key(o.value.key) != c.key(n.key)
      then [Record(Some(c.key(o.value.key)), None), Record(Some(c.key(n.key)), Some(c.row(n.row)))]
      else [Record(Some(c.key(n.key)), Some(c.row(n.row)))]
    case DeleteOp(_, o) => if o.Some? then [Record(Some(c.key(o.value.key)), None)] else []
  }

  lemma RecordsOfChange<S, K, R, B>(relid: Oid, ch: Change<K, R, B>)
    ensures Records<S, B>(Messages(relid, ch)) == RecordsOfOp(ch.codec, ch.op)
  {
    var ms: seq<Message<S, B>> := Messages(relid, ch);
    assert |ms| == 1 ==> Records(ms) == RecordsOf(ms[0]);
    assert |ms| == 2 ==> Records(ms) == RecordsOf(ms[0]) + RecordsOf(ms[1]) by {
      if |ms| == 2 {
        assert ms[1..] == [ms[1]];
        assert Records([ms[1]]) == RecordsOf(ms[1]) + [];
      }
    }
  }

  // The topic after a change.
  ghost function TopicAfter<K, R, B>(c: Codec<K, R, B>, op: Op<K, R>, m: map<B, B>): map<B, B> {
    match op
    case InsertOp(n) => m[c.key(n.key) := c.row(n.row)]
    case UpdateOp(k, o, n) =>
      (if o.Some? && n.key != k then m - {c.key(k)} else m)[c.key(n.key) := c.row(n.row)]
    case DeleteOp(k, o) => if o.Some? then m - {c.key(k)} else m
  }

  lemma TopicAfterChange<S, K(!new), R, B>(relid: Oid, ch: Change<K, R, B>, t: map<K, Image<R, B>>, m: map<B, B>)
    requires NoClash(t, ch.codec) && Valid(Rows(t), ch.op)
    ensures AppliedAll(m, Records<S, B>(Messages(relid, ch))) == TopicAfter(ch.codec, ch.op, m)
  {
    var c := ch.codec;
    RecordsOfChange<S, K, R, B>(relid, ch);
    match ch.op {
      case InsertOp(n) =>
        var put := Record(Some(c.key(n.key)), Some(c.row(n.row)));
        AppliedShort(m, put, put);
      case UpdateOp(k, o, n) =>
        var put := Record(Some(c.key(n.key)), Some(c.row(n.row)));
        AppliedShort(m, put, put);
        AppliedShort(m, Record(Some(c.key(k)), None), put);
      case DeleteOp(k, o) =>
        var gone := Record(Some(c.key(k)), None);
        AppliedShort(m, gone, gone);
    }
  }

  lemma AgreeAfterPut<K(!new), R, B>(c: Codec<K, R, B>, t: map<K, Image<R, B>>, m: map<B, B>, n: Tuple<K, R>)
    requires Agree(t, m) && NoClash(t, c) && n.key !in t
    ensures Agree(t[n.key := Written(c, n)], m[c.key(n.key) := c.row(n.row)])
  {
    assert c.key(n.key) !in m;
    var t', m' := t[n.key := Written(c, n)], m[c.key(n.key) := c.row(n.row)];
    forall b | b in m'
      ensures exists k :: k in t' && t'[k].key == b
    {
      if b == c.key(n.key) {
        assert t'[n.key].key == b;
      } else {
        var k :| k in t && t[k].key == b;
        assert t'[k].key == b;
      }
    }
  }

  lemma AgreeAfterRemove<K, R, B>(t: map<K, Image<R, B>>, m: map<B, B>, k: K)
    requires Agree(t, m) && k in t
    ensures Agree(t - {k}, m - {t[k].key})
  {
    forall b | b in m - {t[k].key}
      ensures exists j :: j in t - {k} && (t - {k})[j].key == b
    {
      var j :| j in t && t[j].key == b;
      assert j in t - {k};
    }
  }

  // A record left under the bytes of a row that is gone or written anew.
  lemma StaleRecord<K, R, B>(t: map<K, Image<R, B>>, t': map<K, Image<R, B>>, m': map<B, B>, k: K)
    requires k in t && t[k].key in m'
    requires forall j :: j in t' ==> t'[j].key != t[k].key
    ensures !Agree(t', m')
  {
  }

  lemma UpdateAgrees<K(!new), R, B>(c: Codec<K, R, B>, t: map<K, Image<R, B>>, m: map<B, B>,
                                    k: K, n: Tuple<K, R>, removes: bool)
    requires NoClash(t, c) && Agree(t, m) && k in t && (n.key == k || n.key !in t) && (removes ==> n.key != k)
    ensures Agree((t - {k})[n.key := Written(c, n)],
                  (if removes then m - {c.key(k)} else m)[c.key(n.key) := c.row(n.row)])
            <==> c.key(k) == t[k].key && (n.key == k || removes)
  {
    var t' := (t - {k})[n.key := Written(c, n)];
    var m' := (if removes then m - {c.key(k)} else m)[c.key(n.key) := c.row(n.row)];
    if c.key(k) == t[k].key && (n.key == k || removes) {
      AgreeAfterRemove(t, m, k);
      AgreeAfterPut(c, t - {k}, m - {c.key(k)}, n);
      assert m' == (m - {c.key(k)})[c.key(n.key) := c.row(n.row)];
    } else {
      assert c.key(n.key) != t[k].key;
      StaleRecord(t, t', m', k);
    }
  }

  /** One valid change keeps topic and table in agreement exactly when it carries
      the old tuple wherever the old key disappears, and the row's key is encoded
      as when the row was last written. */
  lemma ChangeAgrees<S, K(!new), R, B>(relid: Oid, ch: Change<K, R, B>, t: map<K, Image<R, B>>, m: map<B, B>)
    requires NoClash(t, ch.codec) && Agree(t, m) && Valid(Rows(t), ch.op)
    ensures Agree(ImageAfter(t, ch), AppliedAll(m, Records<S, B>(Messages(relid, ch)))) <==> FindsOld(t, ch)
  {
    TopicAfterChange<S, K, R, B>(relid, ch, t, m);
    var c := ch.codec;
    match ch.op {
      case InsertOp(n) =>
        AgreeAfterPut(c, t, m, n);
      case UpdateOp(k, o, n) =>
        UpdateAgrees(c, t, m, k, n, o.Some? && n.key != k);
      case DeleteOp(k, o) =>
        if o.Some? && c.key(k) == t[k].key {
          AgreeAfterRemove(t, m, k);
        } else {
          StaleRecord(t, t - {k}, if o.Some? then m - {c.key(k)} else m, k);
        }
    }
  }

  // ---- sequences of changes ----

  ghost function Produced<S, K, R, B>(relid: Oid, changes: seq<Change<K, R, B>>): seq<Record<B>> {
    if changes == [] then []
    else Records<S, B>(Messages(relid, changes[0])) + Produced<S, K, R, B>(relid, changes[1..])
  }

  // The topic agrees with the table after every change.
  ghost predicate AgreesThroughout<S, K, R, B>(relid: Oid, t: map<K, Image<R, B>>, m: map<B, B>,
                                               changes: seq<Change<K, R, B>>)
    decreases |changes|
  {
    && Agree(t, m)
    && (changes == [] ||
        AgreesThroughout<S, K, R, B>(relid, ImageAfter(t, changes[0]),
                                     AppliedAll(m, Records<S, B>(Messages(relid, changes[0]))), changes[1..]))
  }

  ghost predicate AllFindOld<K, R, B>(t: map<K, Image<R, B>>, changes: seq<Change<K, R, B>>)
    decreases |changes|
  {
    changes == [] || (FindsOld(t, changes[0]) && AllFindOld(ImageAfter(t, changes[0]), changes[1..]))
  }

  // No codec to come clashes with a row of the table.
  ghost predicate NoneClash<K(!new), R, B>(t: map<K, Image<R, B>>, changes: seq<Change<K, R, B>>) {
    Injective(changes) && forall i :: 0 <= i < |changes| ==> NoClash(t, changes[i].codec)
  }

  lemma NoneClashStep<K(!new), R, B>(t: map<K, Image<R, B>>, changes: seq<Change<K, R, B>>)
    requires NoneClash(t, changes) && changes != []
    ensures NoneClash(ImageAfter(t, changes[0]), changes[1..])
  {
    var t' := ImageAfter(t, changes[0]);
    forall i | 0 <= i < |changes[1..]|
      ensures NoClash(t', changes[1..][i].codec)
    {
      assert changes[1..][i] == changes[i + 1];
      assert NoClash(t, changes[i + 1].codec);
    }
  }

  /** For every valid sequence of changes to a keyed table, under schemas that may
      change at any point: the compacted topic is the table after each of them if
      and only if every delete and every change of key carries the old tuple, and
      every change of a row encodes the row's key as its last write did. */
  lemma {:induction false} TopicIsTable<S, K(!new), R, B>(relid: Oid, t: map<K, Image<R, B>>, m: map<B, B>,
                                                          changes: seq<Change<K, R, B>>)
    requires NoneClash(t, changes) && Agree(t, m) && ValidFrom(Rows(t), changes)
    ensures AgreesThroughout<S, K, R, B>(relid, t, m, changes) <==> AllFindOld(t, changes)
    decreases |changes|
  {
    if changes == [] {
    } else {
      assert NoClash(t, changes[0].codec);
      ChangeAgrees<S, K, R, B>(relid, changes[0], t, m);
      RowsStep(t, changes[0]);
      NoneClashStep(t, changes);
      var t' := ImageAfter(t, changes[0]);
      var m' := AppliedAll(m, Records<S, B>(Messages(relid, changes[0])));
      if Agree(t', m') {
        TopicIsTable<S, K, R, B>(relid, t', m', changes[1..]);
      } else {
        assert !AgreesThroughout<S, K, R, B>(relid, t', m', changes[1..]);
      }
    }
  }

  // ---- the condition, read off the changes ----

  lemma {:induction false} AllFindOldAt<K, R, B>(t: map<K, Image<R, B>>, changes: seq<Change<K, R, B>>)
    ensures AllFindOld(t, changes)
            <==> forall i :: 0 <= i < |changes| ==> FindsOld(ImagesAfter(t, changes[..i]), changes[i])
    decreases |changes|
  {
    if changes == [] {
    } else {
      var rest, t' := changes[1..], ImageAfter(t, changes[0]);
      AllFindOldAt(t', rest);
      forall i | 0 <= i < |rest|
        ensures FindsOld(ImagesAfter(t', rest[..i]), rest[i])
                <==> FindsOld(ImagesAfter(t, changes[..i + 1]), changes[i + 1])
      {
        assert changes[..i + 1][1..] == rest[..i];
      }
      assert changes[..0] == [];
      assert forall i :: 0 < i < |changes| ==> changes[i] == rest[i - 1];
    }
  }

  lemma {:induction false} ValidAt<K, R, B>(t: map<K, R>, changes: seq<Change<K, R, B>>, i: nat)
    requires ValidFrom(t, changes) && i < |changes|
    ensures Valid(TableAfter(t, changes[..i]), changes[i].op)
    decreases |changes|
  {
    if i == 0 {
      assert changes[..0] == [];
    } else {
      assert changes[..i][1..] == changes[1..][..i - 1];
      ValidAt(After(t, changes[0].op), changes[1..], i - 1);
    }
  }

  // Change `i` encodes the key of the row it changes as that row's last write did.
  ghost predicate KeyAsLastWritten<K, R, B>(changes: seq<Change<K, R, B>>, i: nat)
    requires i < |changes|
  {
    changes[i].op.InsertOp? ||
    forall j: nat :: LastWrite(changes[..i], changes[i].op.target, j) ==>
      changes[i].codec.key(changes[i].op.target) == changes[j].codec.key(changes[i].op.target)
  }

  ghost predicate EachFindsOld<K, R, B>(changes: seq<Change<K, R, B>>) {
    forall i :: 0 <= i < |changes| ==> CarriesOld(changes[i].op) && KeyAsLastWritten(changes, i)
  }

  lemma FindsOldAt<K, R, B>(changes: seq<Change<K, R, B>>, i: nat)
    requires ValidFrom(map[], changes) && i < |changes|
    ensures FindsOld(ImagesAfter(map[], changes[..i]), changes[i])
            <==> CarriesOld(changes[i].op) && KeyAsLastWritten(changes, i)
  {
    var none: map<K, Image<R, B>> := map[];
    ValidAt(map[], changes, i);
    RowsAfter(none, changes[..i]);
    assert Rows(none) == map[];
    if !changes[i].op.InsertOp? {
      var k := changes[i].op.target;
      assert k in Rows(ImagesAfter(none, changes[..i]));
      var j := ImageIsLastWrite(none, changes[..i], k);
      assert LastWrite(changes[..i], k, j);
    }
  }

  /** For a table that starts empty the condition can be read off the changes. */
  lemma FindOldIff<K, R, B>(changes: seq<Change<K, R, B>>)
    requires ValidFrom(map[], changes)
    ensures AllFindOld(map[], changes) <==> EachFindsOld(changes)
  {
    AllFindOldAt(map[], changes);
    forall i | 0 <= i < |changes|
      ensures FindsOld(ImagesAfter(map[], changes[..i]), changes[i])
              <==> CarriesOld(changes[i].op) && KeyAsLastWritten(changes, i)
    {
      FindsOldAt(changes, i);
    }
  }

  /** As long as the key's encoding does not change, only the old tuples matter,
      however the row's encoding changes. */
  lemma SameKeyEncoding<K(!new), R, B>(changes: seq<Change<K, R, B>>, key: K -> B)
    requires forall i, a :: 0 <= i < |changes| ==> changes[i].codec.key(a) == key(a)
    ensures EachFindsOld(changes) <==> forall i :: 0 <= i < |changes| ==> CarriesOld(changes[i].op)
  {
    forall i | 0 <= i < |changes|
      ensures KeyAsLastWritten(changes, i)
    {
      if !changes[i].op.InsertOp? {
        assert changes[i].codec.key(changes[i].op.target) == key(changes[i].op.target);
      }
    }
  }

  lemma {:induction false} AppliedAllConcat<B>(m: map<B, B>, a: seq<Record<B>>, b: seq<Record<B>>)
    ensures AppliedAll(m, a + b) == AppliedAll(AppliedAll(m, a), b)
    decreases |a|
  {
    if a == [] {
      assert a + b == b;
    } else {
      assert (a + b)[1..] == a[1..] + b;
      AppliedAllConcat(Applied(m, a[0]), a[1..], b);
    }
  }

  lemma {:induction false} ProducedAgrees<S, K, R, B>(relid: Oid, t: map<K, Image<R, B>>, m: map<B, B>,
                                                      changes: seq<Change<K, R, B>>)
    requires AgreesThroughout<S, K, R, B>(relid, t, m, changes)
    ensures Agree(ImagesAfter(t, changes), AppliedAll(m, Produced<S, K, R, B>(relid, changes)))
    decreases |changes|
  {
    if changes == [] {
    } else {
      var first := Records<S, B>(Messages(relid, changes[0]));
      ProducedAgrees<S, K, R, B>(relid, ImageAfter(t, changes[0]), AppliedAll(m, first), changes[1..]);
      AppliedAllConcat(m, first, Produced<S, K, R, B>(relid, changes[1..]));
    }
  }

  // ---- what a consumer finds ----

  // The record of a row: under its key, and with its value, in the encodings in
  // force when it was last written.
  ghost predicate RecordOf<K, R, B>(changes: seq<Change<K, R, B>>, k: K, row: R, i: nat, b: B, value: B) {
    LastWrite(changes, k, i) && b == changes[i].codec.key(k) && value == changes[i].codec.row(row)
  }

  // The topic has a record for each row of the table, and no other.
  ghost predicate Holds<K, R, B>(changes: seq<Change<K, R, B>>, table: map<K, R>, m: map<B, B>) {
    && (forall k :: k in table ==> exists i: nat, b :: b in m && RecordOf(changes, k, table[k], i, b, m[b]))
    && (forall b :: b in m ==> exists k, i: nat :: k in table && RecordOf(changes, k, table[k], i, b, m[b]))
  }

  lemma AgreeHolds<K, R, B>(changes: seq<Change<K, R, B>>, m: map<B, B>)
    requires Agree(ImagesAfter(map[], changes), m)
    ensures Holds(changes, TableAfter(map[], changes), m)
  {
    var none: map<K, Image<R, B>> := map[];
    var t, table := ImagesAfter(none, changes), TableAfter(map[], changes);
    RowsAfter(none, changes);
    assert Rows(none) == map[];
    assert Rows(t) == table;
    forall k | k in table
      ensures exists i: nat :: t[k].key in m && RecordOf(changes, k, table[k], i, t[k].key, m[t[k].key])
    {
      var i := ImageIsLastWrite(none, changes, k);
      assert RecordOf(changes, k, table[k], i, t[k].key, m[t[k].key]);
    }
    forall b | b in m
      ensures exists k, i: nat :: k in table && RecordOf(changes, k, table[k], i, b, m[b])
    {
      var k :| k in t && t[k].key == b;
      var i := ImageIsLastWrite(none, changes, k);
      assert RecordOf(changes, k, table[k], i, b, m[b]);
    }
  }

  /** Starting from an empty table, the compacted records of a whole sequence of
      changes are the rows of the table it leaves behind, each encoded as when it
      was last written. */
  lemma CompactedIsTable<S, K(!new), R, B>(relid: Oid, changes: seq<Change<K, R, B>>)
    requires Injective(changes) && ValidFrom(map[], changes)
    requires EachFindsOld(changes)
    ensures Holds(changes, TableAfter(map[], changes), Compact(Produced<S, K, R, B>(relid, changes)))
  {
    var none: map<K, Image<R, B>> := map[];
    assert Rows(none) == map[];
    FindOldIff(changes);
    forall i | 0 <= i < |changes|
      ensures NoClash(none, changes[i].codec)
    {
    }
    TopicIsTable<S, K, R, B>(relid, map[], map[], changes);
    ProducedAgrees<S, K, R, B>(relid, map[], map[], changes);
    CompactConcat([], Produced<S, K, R, B>(relid, changes));
    assert [] + Produced<S, K, R, B>(relid, changes) == Produced<S, K, R, B>(relid, changes);
    AgreeHolds(changes, Compact(Produced<S, K, R, B>(relid, changes)));
  }
}
