/** Types shared by the models of the server plugin, the client and the producer. */
module Common {
  datatype Option<+T> = None | Some(value: T)

  newtype byte = x: int | 0 <= x < 256

  type Bytes = seq<byte>

  // Postgres object identifiers.
  type Oid = nat

  // The last element of a sequence that is about `id`.
  ghost predicate LastFor<T>(items: seq<T>, idOf: T -> Oid, id: Oid, i: nat) {
    && i < |items| && idOf(items[i]) == id
    && forall j :: i < j < |items| ==> idOf(items[j]) != id
  }

  lemma {:induction false} LastForExists<T>(items: seq<T>, idOf: T -> Oid, id: Oid) returns (i: nat)
    requires exists j :: 0 <= j < |items| && idOf(items[j]) == id
    ensures LastFor(items, idOf, id, i)
    decreases |items|
  {
    var n := |items| - 1;
    if idOf(items[n]) == id {
      i := n;
    } else {
      var j :| 0 <= j < |items| && idOf(items[j]) == id;
      assert idOf(items[..n][j]) == id;
      i := LastForExists(items[..n], idOf, id);
    }
  }
}
