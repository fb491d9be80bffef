/** Escaping of Postgres identifiers into Avro names (make_avro_safe in
    ext/oid2avro.c), bytewise as in the code. */
module AvroName {
  import opened Common

  const UNDERSCORE: byte := 0x5F
  const DOT: byte := 0x2E

  predicate IsLetter(c: byte) {
    0x41 <= c <= 0x5A || 0x61 <= c <= 0x7A
  }

  predicate IsDigit(c: byte) {
    0x30 <= c <= 0x39
  }

  predicate NameStart(c: byte) {
    IsLetter(c) || c == UNDERSCORE
  }

  predicate NameChar(c: byte) {
    NameStart(c) || IsDigit(c)
  }

  // Section "Names" of the Avro 1.8.1 specification.
  predicate ValidName(t: Bytes) {
    && t != []
    && NameStart(t[0])
    && forall i :: 0 <= i < |t| ==> NameChar(t[i])
  }

  // A dot-separated sequence of names; `start` says whether a name begins here.
  predicate ValidNamespace(t: Bytes, start: bool) {
    if t == [] then !start
    else if start then NameStart(t[0]) && ValidNamespace(t[1..], false)
    else if t[0] == DOT then ValidNamespace(t[1..], true)
    else NameChar(t[0]) && ValidNamespace(t[1..], false)
  }

  // ---- the escaping ----

  function Hex(n: byte): (h: byte)
    requires n < 16
    ensures NameChar(h) && h != UNDERSCORE
  {
    if n < 10 then 0x30 + n else 0x61 + (n - 10)
  }

  predicate Passes(raw: Bytes, isNamespace: bool, i: nat)
    requires i < |raw|
  {
    || NameStart(raw[i])
    || (raw[i] == DOT && isNamespace && 0 < i < |raw| - 1)
    || (IsDigit(raw[i]) && i > 0)
  }

  function EscapedAt(raw: Bytes, isNamespace: bool, i: nat): Bytes
    requires i < |raw|
  {
    if Passes(raw, isNamespace, i) then [raw[i]]
    else [UNDERSCORE, Hex(raw[i] / 16), Hex(raw[i] % 16), UNDERSCORE]
  }

  // The escaped form of raw[i..], given where it stands in the whole name.
  function EscapeFrom(raw: Bytes, isNamespace: bool, i: nat): Bytes
    requires i <= |raw|
    decreases |raw| - i
  {
    if i == |raw| then [] else EscapedAt(raw, isNamespace, i) + EscapeFrom(raw, isNamespace, i + 1)
  }

  function Escape(raw: Bytes, isNamespace: bool): Bytes {
    EscapeFrom(raw, isNamespace, 0)
  }

  lemma Concat3(a: Bytes, b: Bytes, c: Bytes)
    ensures (a + b) + c == a + (b + c)
  {
  }

  method EncodeByte(raw: Bytes, isNamespace: bool, index: nat) returns (piece: Bytes)
    requires index < |raw|
    ensures piece == EscapedAt(raw, isNamespace, index)
  {
    var c := raw[index];
    var ch := c as char;
    if ('A' <= ch <= 'Z') || ('a' <= ch <= 'z') || ch == '_'
       || (ch == '.' && isNamespace && index > 0 && index < |raw| - 1)
       || ('0' <= ch <= '9' && index > 0)
    {
      piece := [c];
    } else {
      piece := [UNDERSCORE, Hex(c / 16), Hex(c % 16), UNDERSCORE];
    }
  }

  method MakeAvroSafe(raw: Bytes, isNamespace: bool) returns (encoded: Bytes)
    ensures encoded == Escape(raw, isNamespace)
  {
    encoded := [];
    var index := 0;
    while index < |raw|
      invariant 0 <= index <= |raw|
      invariant encoded + EscapeFrom(raw, isNamespace, index) == Escape(raw, isNamespace)
    {
      var piece := EncodeByte(raw, isNamespace, index);
      Concat3(encoded, piece, EscapeFrom(raw, isNamespace, index + 1));
      encoded := encoded + piece;
      index := index + 1;
    }
  }

  // ---- what the result looks like ----

  /** No byte takes more than four, and none is lost. */
  lemma {:induction false} EscapeSize(raw: Bytes, isNamespace: bool, i: nat)
    requires i <= |raw|
    ensures |raw| - i <= |EscapeFrom(raw, isNamespace, i)| <= 4 * (|raw| - i)
    decreases |raw| - i
  {
    if i == |raw| {
    } else {
      EscapeSize(raw, isNamespace, i + 1);
    }
  }

  // Some byte from `i` on is left as it is.
  ghost predicate SomePasses(raw: Bytes, isNamespace: bool, i: nat) {
    exists j :: i <= j < |raw| && Passes(raw, isNamespace, j)
  }

  lemma {:induction false} EscapeFits(raw: Bytes, isNamespace: bool, i: nat)
    requires i <= |raw|
    ensures |EscapeFrom(raw, isNamespace, i)| < 4 * (|raw| - i) <==> SomePasses(raw, isNamespace, i)
    decreases |raw| - i
  {
    if i == |raw| {
    } else {
      EscapeFits(raw, isNamespace, i + 1);
      EscapeSize(raw, isNamespace, i + 1);
      assert SomePasses(raw, isNamespace, i) <==> Passes(raw, isNamespace, i) || SomePasses(raw, isNamespace, i + 1);
    }
  }

  /** Four bytes per input byte leave room for a terminating byte if and only if
      some byte needs no escaping. */
  lemma RoomForTerminator(raw: Bytes, isNamespace: bool)
    ensures |Escape(raw, isNamespace)| + 1 <= 4 * |raw| <==> SomePasses(raw, isNamespace, 0)
  {
    EscapeFits(raw, isNamespace, 0);
  }

  lemma {:induction false} EscapeChars(raw: Bytes, i: nat)
    requires i <= |raw|
    ensures forall j :: 0 <= j < |EscapeFrom(raw, false, i)| ==> NameChar(EscapeFrom(raw, false, i)[j])
    decreases |raw| - i
  {
    if i == |raw| {
    } else {
      EscapeChars(raw, i + 1);
      assert forall j :: 0 <= j < |EscapedAt(raw, false, i)| ==> NameChar(EscapedAt(raw, false, i)[j]);
    }
  }

  /** Every non-empty identifier becomes a valid Avro name. */
  lemma EscapeIsValid(raw: Bytes)
    requires raw != []
    ensures ValidName(Escape(raw, false))
  {
    EscapeChars(raw, 0);
    assert NameStart(EscapedAt(raw, false, 0)[0]);
  }

  lemma {:induction false} EscapeTail(raw: Bytes, i: nat)
    requires i <= |raw|
    ensures EscapeFrom(raw, false, i) == raw[i..] <==> forall j :: i <= j < |raw| ==> Passes(raw, false, j)
    decreases |raw| - i
  {
    if i == |raw| {
    } else {
      EscapeTail(raw, i + 1);
      EscapeSize(raw, false, i + 1);
      assert raw[i..] == [raw[i]] + raw[i + 1..];
      if Passes(raw, false, i) {
        assert EscapeFrom(raw, false, i)[1..] == EscapeFrom(raw, false, i + 1);
        assert raw[i..][1..] == raw[i + 1..];
      }
    }
  }

  /** An identifier is left unchanged exactly when it is a valid Avro name. */
  lemma UnchangedIffValid(raw: Bytes)
    requires raw != []
    ensures Escape(raw, false) == raw <==> ValidName(raw)
  {
    EscapeTail(raw, 0);
    assert raw[0..] == raw;
    assert ValidName(raw) ==> forall j :: 0 <= j < |raw| ==> Passes(raw, false, j);
    if forall j :: 0 <= j < |raw| ==> Passes(raw, false, j) {
      assert Passes(raw, false, 0);
      forall i | 0 <= i < |raw|
        ensures NameChar(raw[i])
      {
        assert Passes(raw, false, i);
      }
    }
  }

  /** The escaping is not injective: whatever it changes, it maps to a name that it
      leaves alone. */
  lemma EscapeCollides(raw: Bytes)
    requires raw != [] && !ValidName(raw)
    ensures Escape(raw, false) != raw
    ensures Escape(Escape(raw, false), false) == Escape(raw, false)
  {
    UnchangedIffValid(raw);
    EscapeIsValid(raw);
    UnchangedIffValid(Escape(raw, false));
  }

  // ---- namespaces ----

  // A dot that is passed through although no name can start after it.
  predicate BadDot(raw: Bytes, i: nat) {
    && 0 < i < |raw| - 1 && raw[i] == DOT
    && (IsDigit(raw[i + 1]) || (raw[i + 1] == DOT && i + 1 < |raw| - 1))
  }

  // A name begins at byte `i`.
  predicate AtStart(raw: Bytes, i: nat)
    requires i <= |raw|
  {
    i == 0 || (raw[i - 1] == DOT && Passes(raw, true, i - 1))
  }

  lemma EscapedByteInNamespace(c: byte, rest: Bytes, start: bool)
    ensures ValidNamespace([UNDERSCORE, Hex(c / 16), Hex(c % 16), UNDERSCORE] + rest, start)
            <==> ValidNamespace(rest, false)
  {
    var t := [UNDERSCORE, Hex(c / 16), Hex(c % 16), UNDERSCORE] + rest;
    assert t[1..] == [Hex(c / 16), Hex(c % 16), UNDERSCORE] + rest;
    assert t[1..][1..] == [Hex(c % 16), UNDERSCORE] + rest;
    assert t[1..][1..][1..] == [UNDERSCORE] + rest;
    assert t[1..][1..][1..][1..] == rest;
    assert ValidNamespace(t[1..][1..][1..], false) <==> ValidNamespace(rest, false);
    assert ValidNamespace(t[1..][1..], false) <==> ValidNamespace(t[1..][1..][1..], false);
  }

  // The byte may stand where it does: a name does not start with it, or may.
  predicate StartsWell(raw: Bytes, i: nat)
    requires i < |raw|
  {
    AtStart(raw, i) && Passes(raw, true, i) ==> NameStart(raw[i])
  }

  lemma NamespaceStep(raw: Bytes, i: nat)
    requires i < |raw|
    ensures ValidNamespace(EscapeFrom(raw, true, i), AtStart(raw, i))
            <==> StartsWell(raw, i) && ValidNamespace(EscapeFrom(raw, true, i + 1), AtStart(raw, i + 1))
  {
    var rest := EscapeFrom(raw, true, i + 1);
    if Passes(raw, true, i) {
      assert EscapeFrom(raw, true, i) == [raw[i]] + rest;
      assert ([raw[i]] + rest)[1..] == rest;
    } else {
      EscapedByteInNamespace(raw[i], rest, AtStart(raw, i));
    }
  }

  lemma {:induction false} NamespaceFrom(raw: Bytes, i: nat)
    requires i <= |raw| && raw != []
    ensures ValidNamespace(EscapeFrom(raw, true, i), AtStart(raw, i))
            <==> forall j :: i <= j < |raw| ==> StartsWell(raw, j)
    decreases |raw| - i
  {
    if i == |raw| {
    } else {
      NamespaceStep(raw, i);
      NamespaceFrom(raw, i + 1);
    }
  }

  lemma StartsWellIff(raw: Bytes, j: nat)
    requires j < |raw|
    ensures StartsWell(raw, j) <==> j == 0 || !BadDot(raw, j - 1)
  {
  }

  /** In namespace mode the result is a dot-separated sequence of valid names if
      and only if no inner dot is followed by a digit or by another inner dot. */
  lemma NamespaceValidIff(raw: Bytes)
    requires raw != []
    ensures ValidNamespace(Escape(raw, true), true) <==> forall j :: 0 <= j < |raw| ==> !BadDot(raw, j)
  {
    NamespaceFrom(raw, 0);
    forall j | 0 <= j < |raw|
      ensures StartsWell(raw, j) <==> j == 0 || !BadDot(raw, j - 1)
    {
      StartsWellIff(raw, j);
    }
    if forall j :: 0 <= j < |raw| ==> StartsWell(raw, j) {
      forall j | 0 <= j < |raw|
        ensures !BadDot(raw, j)
      {
        if j + 1 < |raw| {
          assert StartsWell(raw, j + 1);
        }
      }
    }
  }

  // Bytes that need no escaping come out as they are.
  lemma {:induction false} PassedPrefix(raw: Bytes, isNamespace: bool, i: nat, n: nat)
    requires i <= n <= |raw| && forall j :: i <= j < n ==> Passes(raw, isNamespace, j)
    ensures EscapeFrom(raw, isNamespace, i) == raw[i..n] + EscapeFrom(raw, isNamespace, n)
    decreases n - i
  {
    if i == n {
    } else {
      PassedPrefix(raw, isNamespace, i + 1, n);
      assert raw[i..n] == [raw[i]] + raw[i + 1..n];
      Concat3([raw[i]], raw[i + 1..n], EscapeFrom(raw, isNamespace, n));
    }
  }

  lemma {:induction false} SameSizeIff(raw: Bytes, isNamespace: bool, i: nat)
    requires i <= |raw|
    ensures |EscapeFrom(raw, isNamespace, i)| == |raw| - i
            <==> forall j :: i <= j < |raw| ==> Passes(raw, isNamespace, j)
    decreases |raw| - i
  {
    if i == |raw| {
    } else {
      SameSizeIff(raw, isNamespace, i + 1);
      EscapeSize(raw, isNamespace, i + 1);
      assert (forall j :: i <= j < |raw| ==> Passes(raw, isNamespace, j))
          <==> Passes(raw, isNamespace, i) && forall j :: i + 1 <= j < |raw| ==> Passes(raw, isNamespace, j);
    }
  }

  // A longer identifier has a longer name.
  lemma {:induction false} EscapeExtends(p: Bytes, q: Bytes, i: nat)
    requires i <= |p|
    ensures EscapeFrom(p + q, false, i) == EscapeFrom(p, false, i) + EscapeFrom(p + q, false, |p|)
    decreases |p| - i
  {
    if i == |p| {
    } else {
      EscapeExtends(p, q, i + 1);
      assert EscapedAt(p + q, false, i) == EscapedAt(p, false, i);
      Concat3(EscapedAt(p, false, i), EscapeFrom(p, false, i + 1), EscapeFrom(p + q, false, |p|));
    }
  }

  lemma {:induction false} NamespaceBytes(t: Bytes, start: bool)
    requires ValidNamespace(t, start) && t != []
    ensures forall j :: 0 <= j < |t| ==> NameChar(t[j]) || t[j] == DOT
    ensures t[|t| - 1] != DOT && (start ==> NameStart(t[0]))
    decreases |t|
  {
    if |t| == 1 {
      assert t[1..] == [];
    } else {
      NamespaceBytes(t[1..], !start && t[0] == DOT);
      assert forall j :: 1 <= j < |t| ==> t[j] == t[1..][j - 1];
    }
  }

  /** A valid namespace, followed by anything or nothing, is left unchanged: letters,
      digits, underscores and dots all pass. */
  lemma ValidNamespaceKept(prefix: Bytes, rest: Bytes)
    requires ValidNamespace(prefix, true)
    ensures Escape(prefix, true) == prefix
    ensures rest != [] ==>
              Escape(prefix + [DOT] + rest, true)
              == prefix + [DOT] + EscapeFrom(prefix + [DOT] + rest, true, |prefix| + 1)
  {
    NamespaceBytes(prefix, true);
    PassedPrefix(prefix, true, 0, |prefix|);
    if rest != [] {
      var raw := prefix + [DOT] + rest;
      PassedPrefix(raw, true, 0, |prefix| + 1);
      assert raw[0..|prefix| + 1] == prefix + [DOT];
    }
  }

  // ---- reading an escaped name back ----

  function Unhex(h: byte): Option<byte> {
    if IsDigit(h) then Some(h - 0x30)
    else if 0x61 <= h <= 0x66 then Some(h - 0x61 + 10)
    else None
  }

  function Unescape(t: Bytes): Option<Bytes> {
    if t == [] then Some([])
    else if t[0] != UNDERSCORE then Prepend(t[0], Unescape(t[1..]))
    else if |t| >= 4 && t[3] == UNDERSCORE && Unhex(t[1]).Some? && Unhex(t[2]).Some?
    then Prepend(16 * Unhex(t[1]).value + Unhex(t[2]).value, Unescape(t[4..]))
    else None
  }

  function Prepend(c: byte, rest: Option<Bytes>): Option<Bytes> {
    if rest.Some? then Some([c] + rest.value) else None
  }

  lemma UnescapeByte(c: byte, rest: Bytes)
    ensures Unescape([UNDERSCORE, Hex(c / 16), Hex(c % 16), UNDERSCORE] + rest) == Prepend(c, Unescape(rest))
    ensures c != UNDERSCORE ==> Unescape([c] + rest) == Prepend(c, Unescape(rest))
  {
    assert ([UNDERSCORE, Hex(c / 16), Hex(c % 16), UNDERSCORE] + rest)[4..] == rest;
    assert ([c] + rest)[1..] == rest;
  }

  /** An identifier without underscores can be read back exactly, in both modes. */
  lemma {:induction false} UnescapeInverts(raw: Bytes, isNamespace: bool, i: nat)
    requires i <= |raw| && UNDERSCORE !in raw
    ensures Unescape(EscapeFrom(raw, isNamespace, i)) == Some(raw[i..])
    decreases |raw| - i
  {
    if i == |raw| {
      assert raw[i..] == [];
    } else {
      UnescapeInverts(raw, isNamespace, i + 1);
      var rest := EscapeFrom(raw, isNamespace, i + 1);
      UnescapeByte(raw[i], rest);
      assert raw[i] in raw;
      assert Unescape(EscapeFrom(raw, isNamespace, i)) == Prepend(raw[i], Some(raw[i + 1..]));
      assert raw[i..] == [raw[i]] + raw[i + 1..];
    }
  }

  /** Two identifiers without underscores are never mapped to the same name. */
  lemma EscapeInjective(a: Bytes, b: Bytes, isNamespace: bool)
    requires UNDERSCORE !in a && UNDERSCORE !in b && Escape(a, isNamespace) == Escape(b, isNamespace)
    ensures a == b
  {
    UnescapeInverts(a, isNamespace, 0);
    UnescapeInverts(b, isNamespace, 0);
    assert a[0..] == a && b[0..] == b;
  }
}
