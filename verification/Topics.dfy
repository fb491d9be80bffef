/** From a table to its Kafka topic: the schema names the plugin generates
    (ext/oid2avro.c), and the topic name the producer makes of them
    (topic_name_from_avro_schema in kafka/bottledwater.c). */
module Topics {
  import opened Common
  import opened AvroName
  import opened Columns
  import opened SchemaCache

  const TABLE_NAME_BUFFER_LENGTH: nat := 128

  // The bytes of "public".
  const PUBLIC: Bytes := [0x70, 0x75, 0x62, 0x6C, 0x69, 0x63]

  // What strncpy and strncat leave in the buffer.
  function Truncated(s: Bytes): Bytes {
    if |s| < TABLE_NAME_BUFFER_LENGTH then s else s[..TABLE_NAME_BUFFER_LENGTH - 1]
  }

  /** Strips the generated prefix off the namespace. What follows it, unless that is
      "public", goes before the table name. A part longer than the buffer is outside
      this model. */
  method TopicFromSchema(prefix: Bytes, schema: Schema) returns (topic: Bytes)
    requires |schema.namespace| <= |prefix| + TABLE_NAME_BUFFER_LENGTH
    ensures schema.namespace == prefix + [DOT] + PUBLIC ==> topic == Truncated(schema.name)
    ensures !(prefix + [DOT] < schema.namespace) ==> topic == Truncated(schema.name)
    ensures forall rest :: rest != [] && rest != PUBLIC && schema.namespace == prefix + [DOT] + rest ==>
              topic == Truncated(rest + [DOT] + schema.name)
  {
    var ns, start := schema.namespace, |prefix| + 1;
    if !(prefix + [DOT] < ns) || ns[start..] == PUBLIC {
      return Truncated(schema.name);
    }
    assert ns == prefix + [DOT] + ns[start..];
    topic := ns[start..];
    if |topic| + 1 < TABLE_NAME_BUFFER_LENGTH {
      topic := topic + [DOT];
    }
    var room := TABLE_NAME_BUFFER_LENGTH - |topic| - 1;
    topic := topic + if |schema.name| <= room then schema.name else schema.name[..room];
  }

  // ---- the topic of a table ----

  // The Postgres schema's name as it appears in the generated namespace.
  ghost function SchemaPart(prefix: Bytes, nsName: Bytes): Bytes {
    EscapeFrom(Namespace(prefix, nsName), true, |prefix| + 1)
  }

  // Before truncation.
  ghost function FullTopic(prefix: Bytes, nsName: Bytes, name: Bytes): Bytes {
    var part := SchemaPart(prefix, nsName);
    if part == PUBLIC then Escape(name, false) else part + [DOT] + Escape(name, false)
  }

  ghost predicate Fits(prefix: Bytes, nsName: Bytes, name: Bytes) {
    |SchemaPart(prefix, nsName)| + 1 + |Escape(name, false)| < TABLE_NAME_BUFFER_LENGTH
  }

  lemma SchemaPartFollows(prefix: Bytes, nsName: Bytes)
    requires ValidNamespace(prefix, true) && nsName != []
    ensures Escape(Namespace(prefix, nsName), true) == prefix + [DOT] + SchemaPart(prefix, nsName)
    ensures SchemaPart(prefix, nsName) != []
  {
    ValidNamespaceKept(prefix, nsName);
    EscapeSize(Namespace(prefix, nsName), true, |prefix| + 1);
  }

  /** The producer recovers the schema's name from the namespace the plugin built. */
  method TopicOfTable(prefix: Bytes, schema: Schema, ghost rel: Relation) returns (topic: Bytes)
    requires ValidNamespace(prefix, true) && rel.nsName != [] && schema == FreshSchemas(prefix, rel).row
    requires |SchemaPart(prefix, rel.nsName)| < TABLE_NAME_BUFFER_LENGTH
    ensures topic == Truncated(FullTopic(prefix, rel.nsName, rel.name))
  {
    SchemaPartFollows(prefix, rel.nsName);
    topic := TopicFromSchema(prefix, schema);
  }

  // A byte of a schema's name that the topic shows as it is.
  ghost predicate Shown(nsName: Bytes, j: nat)
    requires j < |nsName|
  {
    NameChar(nsName[j]) || (nsName[j] == DOT && j < |nsName| - 1)
  }

  /** The schema's name appears in the topic as it is if and only if it consists of
      letters, digits, underscores and dots, without a dot at its end. */
  lemma SchemaShownIff(prefix: Bytes, nsName: Bytes)
    requires ValidNamespace(prefix, true) && nsName != []
    ensures SchemaPart(prefix, nsName) == nsName <==> forall j :: 0 <= j < |nsName| ==> Shown(nsName, j)
  {
    var raw, n := Namespace(prefix, nsName), |prefix| + 1;
    SameSizeIff(raw, true, n);
    forall j | 0 <= j < |nsName|
      ensures Shown(nsName, j) <==> Passes(raw, true, n + j)
    {
      assert raw[n + j] == nsName[j];
    }
    if forall j :: 0 <= j < |nsName| ==> Shown(nsName, j) {
      forall i | n <= i < |raw|
        ensures Passes(raw, true, i)
      {
        assert Shown(nsName, i - n);
      }
      PassedPrefix(raw, true, n, |raw|);
      assert raw[n..|raw|] == nsName;
    } else {
      var j :| 0 <= j < |nsName| && !Shown(nsName, j);
      assert !Passes(raw, true, n + j);
    }
  }

  /** For names that are valid Avro names the topic is the documented one: the
      table's name, after the schema's and a dot unless the schema is "public". */
  lemma DocumentedTopic(prefix: Bytes, nsName: Bytes, name: Bytes)
    requires ValidNamespace(prefix, true) && ValidName(nsName) && ValidName(name)
    ensures FullTopic(prefix, nsName, name) == if nsName == PUBLIC then name else nsName + [DOT] + name
  {
    SchemaShownIff(prefix, nsName);
    UnchangedIffValid(name);
  }

  lemma SplitAtLastDot(a: Bytes, b: Bytes, c: Bytes, d: Bytes)
    requires a + [DOT] + b == c + [DOT] + d && DOT !in b && DOT !in d
    ensures a == c && b == d
  {
    var s := a + [DOT] + b;
    assert s[|a|] == DOT && s[|c|] == DOT;
    assert forall j :: |a| < j < |s| ==> s[j] == b[j - |a| - 1];
    assert forall j :: |c| < j < |s| ==> s[j] == d[j - |c| - 1];
    assert s[..|a|] == a && s[..|c|] == c && s[|a| + 1..] == b && s[|c| + 1..] == d;
  }

  lemma NoDots(name: Bytes)
    ensures DOT !in Escape(name, false)
  {
    EscapeChars(name, 0);
  }

  lemma SchemaPartInjective(prefix: Bytes, a: Bytes, b: Bytes)
    requires UNDERSCORE !in prefix && UNDERSCORE !in a && UNDERSCORE !in b
    requires SchemaPart(prefix, a) == SchemaPart(prefix, b)
    ensures a == b
  {
    UnescapeInverts(Namespace(prefix, a), true, |prefix| + 1);
    UnescapeInverts(Namespace(prefix, b), true, |prefix| + 1);
    assert Namespace(prefix, a)[|prefix| + 1..] == a && Namespace(prefix, b)[|prefix| + 1..] == b;
  }

  /** Two tables share a topic, before it is cut to the buffer, if and only if their
      schemas and their own names are escaped alike. */
  lemma SameTopicIff(prefix: Bytes, nsA: Bytes, a: Bytes, nsB: Bytes, b: Bytes)
    ensures FullTopic(prefix, nsA, a) == FullTopic(prefix, nsB, b)
            <==> SchemaPart(prefix, nsA) == SchemaPart(prefix, nsB) && Escape(a, false) == Escape(b, false)
  {
    NoDots(a);
    NoDots(b);
    var pa, pb := SchemaPart(prefix, nsA), SchemaPart(prefix, nsB);
    if FullTopic(prefix, nsA, a) != FullTopic(prefix, nsB, b) {
    } else if pa != PUBLIC && pb != PUBLIC {
      SplitAtLastDot(pa, Escape(a, false), pb, Escape(b, false));
    } else {
      assert pa != PUBLIC ==> DOT in FullTopic(prefix, nsA, a);
      assert pb != PUBLIC ==> DOT in FullTopic(prefix, nsB, b);
    }
  }

  /** Two tables have the same topic only if they are the same table, as long as no
      underscore occurs in their names and the topic fits the buffer. */
  lemma TopicsDistinct(prefix: Bytes, nsA: Bytes, a: Bytes, nsB: Bytes, b: Bytes)
    requires UNDERSCORE !in prefix + nsA + a + nsB + b
    requires Fits(prefix, nsA, a) && Fits(prefix, nsB, b)
    requires Truncated(FullTopic(prefix, nsA, a)) == Truncated(FullTopic(prefix, nsB, b))
    ensures nsA == nsB && a == b
  {
    assert forall c :: c in prefix || c in nsA || c in a || c in nsB || c in b ==> c in prefix + nsA + a + nsB + b;
    SameTopicIff(prefix, nsA, a, nsB, b);
    SchemaPartInjective(prefix, nsA, nsB);
    EscapeInjective(a, b, false);
  }

  /** Tables of one schema whose topics agree on all the bytes the buffer has room for
      share a topic, whatever else their names have. */
  lemma LongNamesShareTopic(prefix: Bytes, nsName: Bytes, p: Bytes, q: Bytes, r: Bytes)
    requires |FullTopic(prefix, nsName, p)| >= TABLE_NAME_BUFFER_LENGTH - 1
    ensures Truncated(FullTopic(prefix, nsName, p + q)) == Truncated(FullTopic(prefix, nsName, p + r))
  {
    EscapeExtends(p, q, 0);
    EscapeExtends(p, r, 0);
    assert FullTopic(prefix, nsName, p) <= FullTopic(prefix, nsName, p + q);
    assert FullTopic(prefix, nsName, p) <= FullTopic(prefix, nsName, p + r);
  }
}
