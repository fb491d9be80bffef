/** The snapshot export (ext/snapshot.c): a set-returning function that keeps its
    place between calls and returns one frame each time. */
module Export {
  import opened Common

  // What becomes of a row.
  datatype Fate<F> =
    | Encoded(frame: F)       // a frame with the row's message
    | Unconverted(frame: F)   // the row cannot be converted: a frame without its message
    | Unwritable              // the frame cannot be written

  datatype Result<F> = Next(frame: F) | Done | Raised

  // ---- the nested loop ----

  ghost function TableFrames<F>(rows: seq<Fate<F>>): seq<F> {
    if rows == [] then []
    else (if rows[0].Unwritable? then [] else [rows[0].frame]) + TableFrames(rows[1..])
  }

  ghost function AllFrames<F>(tables: seq<seq<Fate<F>>>): seq<F> {
    if tables == [] then [] else TableFrames(tables[0]) + AllFrames(tables[1..])
  }

  ghost predicate AllEncoded<F>(tables: seq<seq<Fate<F>>>) {
    forall i: nat, j: nat :: i < |tables| && j < |tables[i]| ==> tables[i][j].Encoded?
  }

  // The frames from row `cursor` of table `t` on.
  ghost function FramesFrom<F>(tables: seq<seq<Fate<F>>>, t: nat, cursor: nat): seq<F>
    requires t <= |tables| && (t < |tables| ==> cursor <= |tables[t]|)
  {
    if t == |tables| then [] else TableFrames(tables[t][cursor..]) + AllFrames(tables[t + 1..])
  }

  // Row `j` of table `i` comes before row `cursor` of table `t`.
  ghost predicate Precedes(i: nat, j: nat, t: nat, cursor: nat) {
    i < t || (i == t && j < cursor)
  }

  // Every row before row `cursor` of table `t` was encoded.
  ghost predicate EncodedBefore<F>(tables: seq<seq<Fate<F>>>, t: nat, cursor: nat) {
    forall i: nat, j: nat :: i < |tables| && j < |tables[i]| && Precedes(i, j, t, cursor) ==> tables[i][j].Encoded?
  }

  // Row `j` of table `t` is the first that is not encoded, and `frames` are the
  // frames of the rows before it.
  ghost predicate StoppedAt<F>(tables: seq<seq<Fate<F>>>, frames: seq<F>, t: nat, j: nat) {
    && t < |tables| && j < |tables[t]| && !tables[t][j].Encoded? && EncodedBefore(tables, t, j)
    && frames + FramesFrom(tables, t, j) == AllFrames(tables)
  }

  lemma FramesFromRow<F>(tables: seq<seq<Fate<F>>>, t: nat, cursor: nat)
    requires t < |tables| && cursor < |tables[t]|
    ensures FramesFrom(tables, t, cursor)
            == (if tables[t][cursor].Unwritable? then [] else [tables[t][cursor].frame])
               + FramesFrom(tables, t, cursor + 1)
  {
    assert tables[t][cursor..][1..] == tables[t][cursor + 1..];
  }

  lemma EncodedNext<F>(tables: seq<seq<Fate<F>>>, t: nat, cursor: nat)
    requires t < |tables| && EncodedBefore(tables, t, cursor)
    ensures cursor < |tables[t]| && tables[t][cursor].Encoded? ==> EncodedBefore(tables, t, cursor + 1)
  {
  }

  // At the end of the last table.
  lemma EncodedToTheEnd<F>(tables: seq<seq<Fate<F>>>, cursor: nat)
    requires EncodedBefore(tables, |tables|, cursor)
    ensures AllEncoded(tables)
  {
    forall i: nat, j: nat | i < |tables| && j < |tables[i]|
      ensures tables[i][j].Encoded?
    {
      assert Precedes(i, j, |tables|, cursor);
    }
  }

  lemma StoppedNotAllEncoded<F>(tables: seq<seq<Fate<F>>>, frames: seq<F>, t: nat, j: nat)
    requires StoppedAt(tables, frames, t, j)
    ensures !AllEncoded(tables)
    ensures exists t': nat, j': nat :: StoppedAt(tables, frames, t', j')
  {
  }

  lemma FramesFromNextTable<F>(tables: seq<seq<Fate<F>>>, t: nat)
    requires t < |tables|
    ensures FramesFrom(tables, t, |tables[t]|) == FramesFrom(tables, t + 1, 0)
  {
  }

  lemma FramesFromStart<F>(tables: seq<seq<Fate<F>>>)
    ensures FramesFrom(tables, 0, 0) == AllFrames(tables)
  {
  }

  lemma Regroup<F>(a: seq<F>, b: seq<F>, c: seq<F>)
    ensures a + (b + c) == (a + b) + c
  {
  }

  class Generator<F> {
    const tables: seq<seq<Fate<F>>>
    const exitOnError: bool
    var currentTable: nat
    var cursor: nat                 // rows fetched from the current table
    var locked: seq<bool>           // which tables' locks are held

    ghost predicate Valid()
      reads this
    {
      && currentTable <= |tables|
      && (currentTable < |tables| ==> cursor <= |tables[currentTable]|)
      && |locked| == |tables|
      && forall i :: 0 <= i < |locked| ==> locked[i] == (currentTable <= i)
    }

    // Under the exit policy: no row that was not encoded was passed over.
    ghost predicate NoneSkipped()
      reads this
    {
      exitOnError ==> EncodedBefore(tables, currentTable, cursor)
    }

    // The frames still to come.
    ghost function Remaining(): seq<F>
      reads this
      requires Valid()
    {
      FramesFrom(tables, currentTable, cursor)
    }

    constructor (list: seq<seq<Fate<F>>>, exitPolicy: bool)
      ensures Valid() && tables == list && exitOnError == exitPolicy
      ensures Remaining() == AllFrames(list) && NoneSkipped()
    {
      tables, exitOnError, currentTable, cursor := list, exitPolicy, 0, 0;
      locked := seq(|list|, _ => true);
      FramesFromStart(list);
    }

    // Closes the current table and releases its lock.
    method CloseTable()
      requires Valid() && NoneSkipped() && currentTable < |tables| && cursor == |tables[currentTable]|
      modifies this
      ensures Valid() && NoneSkipped() && currentTable == old(currentTable) + 1
      ensures Remaining() == old(Remaining())
    {
      FramesFromNextTable(tables, currentTable);
      locked := locked[currentTable := false];
      currentTable := currentTable + 1;
      cursor := 0;
    }

    // Fetches one row; whether it is encoded decides if it may be passed over.
    method FetchRow() returns (row: Fate<F>)
      requires Valid() && NoneSkipped() && currentTable < |tables| && cursor < |tables[currentTable]|
      modifies this`cursor
      ensures Valid() && cursor == old(cursor) + 1 && row == tables[currentTable][cursor - 1]
      ensures old(Remaining()) == (if row.Unwritable? then [] else [row.frame]) + Remaining()
      ensures exitOnError ==> EncodedBefore(tables, currentTable, cursor - 1)
      ensures row.Encoded? || !exitOnError ==> NoneSkipped()
    {
      FramesFromRow(tables, currentTable, cursor);
      if exitOnError {
        EncodedNext(tables, currentTable, cursor);
      }
      row := tables[currentTable][cursor];
      cursor := cursor + 1;
    }

    /** One call. It returns the first of the remaining frames, or reports the end,
        every row fetched and every lock released, when there are none. Under the
        exit policy it raises an error on the first row that cannot be converted
        or written. Under the log policy it never raises: a row that cannot be
        converted gives a frame without it, one that cannot be written none. */
    method Call() returns (r: Result<F>)
      requires Valid() && NoneSkipped()
      modifies this
      ensures Valid()
      ensures !r.Raised? ==> NoneSkipped()
      ensures r.Next? ==> old(Remaining()) == [r.frame] + Remaining()
      ensures r.Done? ==> old(Remaining()) == [] && currentTable == |tables|
      ensures r.Done? ==> forall i :: 0 <= i < |locked| ==> !locked[i]
      ensures r.Raised? ==>
                && exitOnError && currentTable < |tables| && 0 < cursor
                && !tables[currentTable][cursor - 1].Encoded?
                && EncodedBefore(tables, currentTable, cursor - 1)
                && old(Remaining()) == FramesFrom(tables, currentTable, cursor - 1)
    {
      while currentTable < |tables|
        invariant Valid() && NoneSkipped() && Remaining() == old(Remaining())
        decreases |tables| - currentTable, if currentTable < |tables| then |tables[currentTable]| - cursor else 0
      {
        if cursor == |tables[currentTable]| {
          CloseTable();
        } else {
          var row := FetchRow();
          if exitOnError && !row.Encoded? {
            return Raised;
          }
          if !row.Unwritable? {
            return Next(row.frame);
          }
        }
      }
      r := Done;
    }
  }

  /** Calling until the end gives the frames of every table's rows, table by table
      and row by row, each once, except the rows that cannot be written. It raises
      an error if and only if the policy is to exit and some row cannot be
      converted or written; then the frames are those of the rows before the
      first such row. */
  method ExportAll<F>(tables: seq<seq<Fate<F>>>, exitOnError: bool) returns (frames: seq<F>, raised: bool)
    ensures raised <==> exitOnError && !AllEncoded(tables)
    ensures !raised ==> frames == AllFrames(tables)
    ensures raised ==> exists t: nat, j: nat :: StoppedAt(tables, frames, t, j)
  {
    var g := new Generator(tables, exitOnError);
    frames, raised := [], false;
    while true
      invariant fresh(g) && g.Valid() && g.tables == tables && g.exitOnError == exitOnError && g.NoneSkipped()
      invariant frames + g.Remaining() == AllFrames(tables)
      decreases |g.Remaining()|
    {
      var r := g.Call();
      match r {
        case Next(f) =>
          Regroup(frames, [f], g.Remaining());
          frames := frames + [f];
        case Done =>
          if exitOnError {
            EncodedToTheEnd(tables, g.cursor);
          }
          return;
        case Raised =>
          StoppedNotAllEncoded(tables, frames, g.currentTable, g.cursor - 1);
          return frames, true;
      }
    }
  }

  /** A table has one frame per row exactly when every frame can be written. */
  lemma {:induction false} FramesPerTable<F>(rows: seq<Fate<F>>)
    ensures |TableFrames(rows)| <= |rows|
    ensures |TableFrames(rows)| == |rows| <==> forall j :: 0 <= j < |rows| ==> !rows[j].Unwritable?
    decreases |rows|
  {
    if rows == [] {
    } else {
      FramesPerTable(rows[1..]);
      assert (forall j :: 0 <= j < |rows| ==> !rows[j].Unwritable?)
          <==> !rows[0].Unwritable? && forall j :: 0 <= j < |rows[1..]| ==> !rows[1..][j].Unwritable?;
    }
  }

  // The rows that give a frame.
  ghost function FrameCount<F>(rows: seq<Fate<F>>): nat {
    if rows == [] then 0 else (if rows[|rows| - 1].Unwritable? then 0 else 1) + FrameCount(rows[..|rows| - 1])
  }

  ghost function FrameCountAll<F>(tables: seq<seq<Fate<F>>>): nat {
    if tables == [] then 0 else FrameCount(tables[|tables| - 1]) + FrameCountAll(tables[..|tables| - 1])
  }

  lemma {:induction false} TableFramesConcat<F>(a: seq<Fate<F>>, b: seq<Fate<F>>)
    ensures TableFrames(a + b) == TableFrames(a) + TableFrames(b)
    decreases |a|
  {
    if a == [] {
      assert a + b == b;
    } else {
      TableFramesConcat(a[1..], b);
      assert (a + b)[1..] == a[1..] + b;
      Regroup(if a[0].Unwritable? then [] else [a[0].frame], TableFrames(a[1..]), TableFrames(b));
    }
  }

  lemma {:induction false} TableFramesCount<F>(rows: seq<Fate<F>>)
    ensures |TableFrames(rows)| == FrameCount(rows)
    decreases |rows|
  {
    if rows == [] {
    } else {
      var n := |rows| - 1;
      TableFramesCount(rows[..n]);
      TableFramesConcat(rows[..n], [rows[n]]);
      assert rows[..n] + [rows[n]] == rows;
      assert [rows[n]][1..] == [];
    }
  }

  lemma {:induction false} AllFramesConcat<F>(a: seq<seq<Fate<F>>>, b: seq<seq<Fate<F>>>)
    ensures AllFrames(a + b) == AllFrames(a) + AllFrames(b)
    decreases |a|
  {
    if a == [] {
      assert a + b == b;
    } else {
      AllFramesConcat(a[1..], b);
      assert (a + b)[1..] == a[1..] + b;
      Regroup(TableFrames(a[0]), AllFrames(a[1..]), AllFrames(b));
    }
  }

  lemma {:induction false} AllFramesCount<F>(tables: seq<seq<Fate<F>>>)
    ensures |AllFrames(tables)| == FrameCountAll(tables)
    decreases |tables|
  {
    if tables == [] {
    } else {
      var n := |tables| - 1;
      AllFramesCount(tables[..n]);
      AllFramesConcat(tables[..n], [tables[n]]);
      assert tables[..n] + [tables[n]] == tables;
      assert [tables[n]][1..] == [];
      TableFramesCount(tables[n]);
    }
  }

  /** The frames come in order: a row's frame is preceded by exactly the frames of the
      rows before it in its table, and of the tables before. */
  lemma FrameAt<F>(tables: seq<seq<Fate<F>>>, t: nat, j: nat)
    requires t < |tables| && j < |tables[t]| && !tables[t][j].Unwritable?
    ensures var at := FrameCountAll(tables[..t]) + FrameCount(tables[t][..j]);
            at < |AllFrames(tables)| && AllFrames(tables)[at] == tables[t][j].frame
  {
    var rows := tables[t];
    AllFramesConcat(tables[..t], tables[t..]);
    assert tables[..t] + tables[t..] == tables;
    AllFramesCount(tables[..t]);
    TableFramesConcat(rows[..j], rows[j..]);
    assert rows[..j] + rows[j..] == rows;
    TableFramesCount(rows[..j]);
  }

  /** The table list is accepted exactly when no table occurs in it twice. */
  method TablesDistinct(relids: seq<Oid>) returns (ok: bool)
    ensures ok <==> forall i, j :: 0 <= j < i < |relids| ==> relids[i] != relids[j]
  {
    for i := 0 to |relids|
      invariant forall a, b :: 0 <= b < a < i ==> relids[a] != relids[b]
    {
      for j := 0 to i
        invariant forall b :: 0 <= b < j ==> relids[i] != relids[b]
      {
        if relids[i] == relids[j] {
          return false;
        }
      }
    }
    ok := true;
  }
}
