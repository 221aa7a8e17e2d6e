/** Recording schedule versions: each recorder reads the highest version of a recipient, and later
    inserts the next one unless it is there already. Recorders may interleave in any way. */
module VersionRecorder {
  import opened Wrappers

  type Recipient = string

  datatype MutationType = Created | Modified | Cancelled | Clawback | Completed

  datatype Mutation = Mutation(kind: MutationType, changedFields: string, ledgerSequence: int, txHash: Option<string>)

  datatype Row = Row(recipient: Recipient, version: nat, mutation: Mutation)

  /** The versions of one recipient, in the order in which they were written. */
  function VersionsOf(rows: seq<Row>, r: Recipient): seq<nat> {
    if rows == [] then []
    else
      var before := VersionsOf(rows[..|rows| - 1], r);
      if Last(rows).recipient == r then before + [Last(rows).version] else before
  }

  /** `COALESCE(MAX(version_number), 0)` */
  function MaxVersion(rows: seq<Row>, r: Recipient): nat {
    if rows == [] then 0
    else
      var before := MaxVersion(rows[..|rows| - 1], r);
      if Last(rows).recipient == r && Last(rows).version > before then Last(rows).version else before
  }

  /** Each recipient's versions are 1, 2, 3 and so on, without gap or duplicate. */
  ghost predicate Gapless(rows: seq<Row>) {
    forall r: Recipient, i :: 0 <= i < |VersionsOf(rows, r)| ==> VersionsOf(rows, r)[i] == i + 1
  }

  /** `INSERT ... ON CONFLICT DO NOTHING` */
  function Insert(rows: seq<Row>, row: Row): seq<Row> {
    if row.version in VersionsOf(rows, row.recipient) then rows else rows + [row]
  }

  lemma VersionsAfterAppend(rows: seq<Row>, row: Row, r: Recipient)
    ensures VersionsOf(rows + [row], r) == VersionsOf(rows, r) + (if row.recipient == r then [row.version] else [])
  {
    assert (rows + [row])[..|rows|] == rows;
  }

  lemma {:induction false} GaplessPrefix(rows: seq<Row>)
    requires Gapless(rows) && rows != []
    ensures Gapless(rows[..|rows| - 1])
  {
    var before := rows[..|rows| - 1];
    assert rows == before + [Last(rows)];
    forall r: Recipient, i | 0 <= i < |VersionsOf(before, r)|
      ensures VersionsOf(before, r)[i] == i + 1
    {
      VersionsAfterAppend(before, Last(rows), r);
      assert VersionsOf(rows, r)[i] == i + 1;
    }
  }

  /** In a gapless table the highest version is the number of versions. */
  lemma {:induction false} MaxIsCount(rows: seq<Row>, r: Recipient)
    requires Gapless(rows)
    ensures MaxVersion(rows, r) == |VersionsOf(rows, r)|
  {
    if rows != [] {
      GaplessPrefix(rows);
      MaxIsCount(rows[..|rows| - 1], r);
      if Last(rows).recipient == r {
        var n := |VersionsOf(rows, r)|;
        assert VersionsOf(rows, r)[n - 1] == n;
      }
    }
  }

  /** A row whose version is at most one past the highest is inserted exactly when it is that next
      one, and either way the table stays gapless. */
  lemma InsertKeepsGapless(rows: seq<Row>, row: Row)
    requires Gapless(rows) && 1 <= row.version <= MaxVersion(rows, row.recipient) + 1
    ensures Gapless(Insert(rows, row))
    ensures Insert(rows, row) == if row.version == MaxVersion(rows, row.recipient) + 1 then rows + [row] else rows
    ensures forall r :: MaxVersion(rows, r) <= MaxVersion(Insert(rows, row), r)
  {
    var versions := VersionsOf(rows, row.recipient);
    MaxIsCount(rows, row.recipient);
    if row.version <= |versions| {
      assert versions[row.version - 1] == row.version;
    } else {
      assert row.version !in versions;
      assert (rows + [row])[..|rows|] == rows;
      forall r: Recipient, i | 0 <= i < |VersionsOf(rows + [row], r)|
        ensures VersionsOf(rows + [row], r)[i] == i + 1
      {
        VersionsAfterAppend(rows, row, r);
      }
    }
  }

  /** The rows of one recipient. */
  function RowsOf(rows: seq<Row>, r: Recipient): set<nat> {
    set i | 0 <= i < |rows| && rows[i].recipient == r
  }

  /** Every row of a recipient gives one version, and no other row does. */
  lemma {:induction false} VersionsAreRows(rows: seq<Row>, r: Recipient)
    ensures |VersionsOf(rows, r)| == |RowsOf(rows, r)|
    ensures forall v :: v in VersionsOf(rows, r) <==> exists i :: i in RowsOf(rows, r) && rows[i].version == v
  {
    if rows != [] {
      var (n, before) := (|rows| - 1, rows[..|rows| - 1]);
      VersionsAreRows(before, r);
      assert RowsOf(rows, r) == RowsOf(before, r) + (if rows[n].recipient == r then {n} else {});
      forall v
        ensures v in VersionsOf(rows, r) <==> exists i :: i in RowsOf(rows, r) && rows[i].version == v
      {
        if rows[n].recipient == r && rows[n].version == v { assert n in RowsOf(rows, r); }
        if i :| i in RowsOf(before, r) && before[i].version == v {
          assert i in RowsOf(rows, r) && rows[i].version == v;
        }
      }
    }
  }

  /** In a gapless table a row's version is its place among the rows of its recipient. */
  lemma {:induction false} VersionIsPlace(rows: seq<Row>, i: nat)
    requires Gapless(rows) && i < |rows|
    ensures rows[i].version == |set j | 0 <= j <= i && rows[j].recipient == rows[i].recipient|
  {
    var (r, before) := (rows[i].recipient, rows[..i + 1]);
    GaplessUpTo(rows, i + 1);
    VersionsAreRows(before, r);
    assert RowsOf(before, r) == set j | 0 <= j <= i && rows[j].recipient == r;
    assert Last(before) == rows[i];
    var n := |VersionsOf(before, r)|;
    assert VersionsOf(before, r)[n - 1] == n;
  }

  lemma {:induction false} GaplessUpTo(rows: seq<Row>, n: nat)
    requires Gapless(rows) && n <= |rows|
    ensures Gapless(rows[..n])
    decreases |rows| - n
  {
    if n < |rows| {
      GaplessUpTo(rows, n + 1);
      GaplessPrefix(rows[..n + 1]);
      assert rows[..n + 1][..n] == rows[..n];
    } else {
      assert rows[..n] == rows;
    }
  }

  /** Two recorders of the same recipient that both read before either inserts: the first is recorded,
      the second leaves no trace. */
  lemma SecondOfTwoIsLost(rows: seq<Row>, r: Recipient, first: Mutation, second: Mutation)
    requires Gapless(rows)
    ensures var next := MaxVersion(rows, r) + 1;
            var once := Insert(rows, Row(r, next, first));
            once == rows + [Row(r, next, first)] && Insert(once, Row(r, next, second)) == once
  {
    var next := MaxVersion(rows, r) + 1;
    InsertKeepsGapless(rows, Row(r, next, first));
    VersionsAfterAppend(rows, Row(r, next, first), r);
  }

  class ScheduleVersions {
    var rows: seq<Row>
    /** Recorders between their two steps, each with the row it means to insert. */
    var pending: map<nat, Row>

    ghost predicate Valid()
      reads this
    {
      && Gapless(rows)
      && forall id :: id in pending ==> 1 <= pending[id].version <= MaxVersion(rows, pending[id].recipient) + 1
    }

    constructor ()
      ensures Valid() && rows == [] && pending == map[]
    {
      rows, pending := [], map[];
    }

    /** The read step: the version to write is one more than the number of the recipient's rows now. */
    method ReadNext(id: nat, r: Recipient, m: Mutation)
      requires Valid() && id !in pending
      modifies this`pending
      ensures Valid()
      ensures pending == old(pending)[id := Row(r, |set i | 0 <= i < |rows| && rows[i].recipient == r| + 1, m)]
    {
      VersionsAreRows(rows, r);
      assert RowsOf(rows, r) == set i | 0 <= i < |rows| && rows[i].recipient == r;
      MaxIsCount(rows, r);
      pending := pending[id := Row(r, MaxVersion(rows, r) + 1, m)];
    }

    /** The insert step. Written rows never change, and the recorder's own row is added exactly when no
        other one of its recipient was added since it read. */
    method InsertIfAbsent(id: nat) returns (stored: bool)
      requires Valid() && id in pending
      modifies this
      ensures Valid() && pending == old(pending) - {id}
      ensures var row := old(pending)[id];
              && (stored <==> |set i | 0 <= i < |old(rows)| && old(rows)[i].recipient == row.recipient|
                              == row.version - 1)
              && rows == old(rows) + (if stored then [row] else [])
    {
      var row := pending[id];
      InsertKeepsGapless(rows, row);
      MaxIsCount(rows, row.recipient);
      VersionsAreRows(rows, row.recipient);
      assert RowsOf(rows, row.recipient) == set i | 0 <= i < |rows| && rows[i].recipient == row.recipient;
      stored := row.version !in VersionsOf(rows, row.recipient);
      if stored { rows := rows + [row]; }
      pending := pending - {id};
    }
  }
}
