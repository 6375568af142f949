/**
 * The compensating-statement ledger (the DATABASECHANGELOGRB table), the
 * engine's changelog table (DATABASECHANGELOG) and the statements replayed
 * against the target schema, all as plain values. A table is an ordered
 * sequence of rows; the order is that of insertion, which is the order of
 * the ledger's auto-incremented surrogate ID.
 */
module Ledger {
  import opened Common
  import opened Sorting

  /** Column names the drivers use in their queries and deletes. */
  const ColChangelogId: string := "CHANGELOGID"
  const ColChangelogChecksum: string := "CHANGELOGCHKSUM"
  const ColRollbackStmt: string := "ROLLBACKSTMT"
  const ColRollbackStmtOrder: string := "ROLLBACKSTMTORDER"

  /** One compensating statement, keyed by the changeset version it undoes. */
  datatype LedgerRow = LedgerRow(changesetId: string, checksum: string, stmtText: string, stmtOrder: int)

  /** The changelog columns the drivers read or match on. */
  datatype ChangelogRow = ChangelogRow(id: string, md5sum: string, orderExecuted: int)

  /**
   * The database state: whether the ledger table exists (the answer of the
   * engine's table-existence check), both tables, and the trace of
   * compensating statements executed against the target schema.
   */
  datatype Db = Db(tableExists: bool, ledger: seq<LedgerRow>, changelog: seq<ChangelogRow>, executed: seq<string>)

  predicate HasKey(row: LedgerRow, id: string, checksum: string)
  {
    row.changesetId == id && row.checksum == checksum
  }

  function StmtOrder(row: LedgerRow): int
  {
    row.stmtOrder
  }

  /**
   * `createRollbackTable`: a no-op when the table exists; otherwise the table
   * is created, empty. Nothing else in the database changes.
   */
  function CreateRollbackTable(db: Db): (r: Db)
    ensures r.tableExists
    ensures db.tableExists ==> r == db
    ensures !db.tableExists ==> r.ledger == []
    ensures r.changelog == db.changelog && r.executed == db.executed
  {
    if db.tableExists then db else db.(tableExists := true, ledger := [])
  }

  lemma CreateRollbackTableIdempotent(db: Db)
    ensures CreateRollbackTable(CreateRollbackTable(db)) == CreateRollbackTable(db)
  {
  }

  /** The rows one insert call appends: statement k under the key, numbered `order + k`. */
  function NumberedRows(id: string, checksum: string, stmts: seq<string>, order: int): (rows: seq<LedgerRow>)
    ensures |rows| == |stmts|
    ensures forall k :: 0 <= k < |stmts| ==> rows[k] == LedgerRow(id, checksum, stmts[k], order + k)
  {
    seq(|stmts|, k requires 0 <= k < |stmts| => LedgerRow(id, checksum, stmts[k], order + k))
  }

  lemma NumberedRowsCons(id: string, checksum: string, stmts: seq<string>, order: int)
    requires |stmts| > 0
    ensures NumberedRows(id, checksum, stmts, order)
         == [LedgerRow(id, checksum, stmts[0], order)] + NumberedRows(id, checksum, stmts[1..], order + 1)
  {
  }

  /** The insert loop: one row per statement, the order counter starting at `order` and stepping by one. */
  function InsertFrom(ledger: seq<LedgerRow>, id: string, checksum: string, stmts: seq<string>, order: int)
    : (r: seq<LedgerRow>)
    ensures r == ledger + NumberedRows(id, checksum, stmts, order)
    decreases |stmts|
  {
    if |stmts| == 0 then ledger
    else
      var row := LedgerRow(id, checksum, stmts[0], order);
      NumberedRowsCons(id, checksum, stmts, order);
      assert ledger + [row] + NumberedRows(id, checksum, stmts[1..], order + 1)
          == ledger + ([row] + NumberedRows(id, checksum, stmts[1..], order + 1));
      InsertFrom(ledger + [row], id, checksum, stmts[1..], order + 1)
  }

  /**
   * `insertRollbackStatements`: appends exactly one row per statement, all
   * keyed `(id, checksum)`, the k-th carrying the k-th statement and order
   * k + 1; the rows already there are kept as they were.
   */
  function InsertRollbackStatements(ledger: seq<LedgerRow>, id: string, checksum: string, stmts: seq<string>)
    : (r: seq<LedgerRow>)
    ensures |r| == |ledger| + |stmts|
    ensures r[..|ledger|] == ledger
    ensures forall k :: 0 <= k < |stmts| ==> r[|ledger| + k] == LedgerRow(id, checksum, stmts[k], k + 1)
  {
    InsertFrom(ledger, id, checksum, stmts, 1)
  }

  /** The inserted rows are the statements numbered from 1, appended. */
  lemma InsertAppendsNumbered(ledger: seq<LedgerRow>, id: string, checksum: string, stmts: seq<string>)
    ensures InsertRollbackStatements(ledger, id, checksum, stmts) == ledger + NumberedRows(id, checksum, stmts, 1)
  {
  }

  /** The rows stored under one key, in table order. */
  function Matching(ledger: seq<LedgerRow>, id: string, checksum: string): (r: seq<LedgerRow>)
    ensures forall row :: row in r <==> row in ledger && HasKey(row, id, checksum)
    ensures |r| <= |ledger|
  {
    if |ledger| == 0 then []
    else (if HasKey(ledger[0], id, checksum) then [ledger[0]] else []) + Matching(ledger[1..], id, checksum)
  }

  lemma {:induction false} MatchingAppend(a: seq<LedgerRow>, b: seq<LedgerRow>, id: string, checksum: string)
    ensures Matching(a + b, id, checksum) == Matching(a, id, checksum) + Matching(b, id, checksum)
    decreases |a|
  {
    if |a| == 0 {
      assert a + b == b;
    } else {
      assert (a + b)[1..] == a[1..] + b;
      MatchingAppend(a[1..], b, id, checksum);
    }
  }

  lemma {:induction false} MatchingAllKeyed(rows: seq<LedgerRow>, id: string, checksum: string)
    requires forall i :: 0 <= i < |rows| ==> HasKey(rows[i], id, checksum)
    ensures Matching(rows, id, checksum) == rows
    decreases |rows|
  {
    if |rows| > 0 {
      MatchingAllKeyed(rows[1..], id, checksum);
      assert rows == [rows[0]] + rows[1..];
    }
  }

  /** The rows of one key in ascending statement order: a sorted permutation of `Matching`. */
  function OrderedRows(ledger: seq<LedgerRow>, id: string, checksum: string): (rows: seq<LedgerRow>)
    ensures SortedBy(rows, StmtOrder)
    ensures multiset(rows) == multiset(Matching(ledger, id, checksum))
    ensures forall row :: row in rows <==> row in ledger && HasKey(row, id, checksum)
  {
    var rows := SortByKey(Matching(ledger, id, checksum), StmtOrder);
    assert forall row :: row in rows <==> row in multiset(rows);
    rows
  }

  function Texts(rows: seq<LedgerRow>): (r: seq<string>)
    ensures |r| == |rows|
    ensures forall i :: 0 <= i < |rows| ==> r[i] == rows[i].stmtText
  {
    seq(|rows|, i requires 0 <= i < |rows| => rows[i].stmtText)
  }

  /**
   * The lookup query: the statement texts stored under the exact key
   * `(id, checksum)`, ordered by ascending statement order; empty when the
   * key has no rows.
   */
  function FetchRollbackStatements(ledger: seq<LedgerRow>, id: string, checksum: string): (stmts: seq<string>)
    ensures |stmts| == |Matching(ledger, id, checksum)|
    ensures forall s :: s in stmts <==> exists row :: row in ledger && HasKey(row, id, checksum) && row.stmtText == s
    ensures exists rows :: && SortedBy(rows, StmtOrder)
                           && multiset(rows) == multiset(Matching(ledger, id, checksum))
                           && stmts == Texts(rows)
  {
    var rows := OrderedRows(ledger, id, checksum);
    assert |rows| == |multiset(rows)| == |Matching(ledger, id, checksum)|;
    var stmts := Texts(rows);
    assert forall s :: s in stmts <==> exists i :: 0 <= i < |rows| && rows[i].stmtText == s;
    stmts
  }

  /** Reading back a key whose rows are exactly one numbered batch yields that batch's statements. */
  lemma {:induction false} FetchNumbered(ledger: seq<LedgerRow>, id: string, checksum: string, stmts: seq<string>, order: int)
    requires Matching(ledger, id, checksum) == []
    ensures FetchRollbackStatements(ledger + NumberedRows(id, checksum, stmts, order), id, checksum) == stmts
  {
    var added := NumberedRows(id, checksum, stmts, order);
    MatchingAppend(ledger, added, id, checksum);
    MatchingAllKeyed(added, id, checksum);
    assert Matching(ledger + added, id, checksum) == added;
    assert SortedBy(added, StmtOrder) by {
      forall i, j | 0 <= i < j < |added|
        ensures StmtOrder(added[i]) <= StmtOrder(added[j])
      {
      }
    }
    SortSortedIsIdentity(added, StmtOrder);
    assert OrderedRows(ledger + added, id, checksum) == added;
    assert Texts(added) == stmts;
  }

  /**
   * Persisting statements under a key that had no rows and reading that key
   * back returns exactly those statements, in the same order.
   */
  lemma FetchAfterInsert(ledger: seq<LedgerRow>, id: string, checksum: string, stmts: seq<string>)
    requires Matching(ledger, id, checksum) == []
    ensures FetchRollbackStatements(InsertRollbackStatements(ledger, id, checksum, stmts), id, checksum) == stmts
  {
    FetchNumbered(ledger, id, checksum, stmts, 1);
  }

  /** The delete of the ledger rows of one key; every other row stays, in order. */
  function DeleteRollbackRows(ledger: seq<LedgerRow>, id: string, checksum: string): seq<LedgerRow>
  {
    if |ledger| == 0 then []
    else (if HasKey(ledger[0], id, checksum) then [] else [ledger[0]]) + DeleteRollbackRows(ledger[1..], id, checksum)
  }

  /**
   * The rows left after deleting a key are exactly the rows not under that
   * key, and as many rows go as the key had.
   */
  lemma {:induction false} DeleteRollbackRowsMembers(ledger: seq<LedgerRow>, id: string, checksum: string)
    ensures forall row :: row in DeleteRollbackRows(ledger, id, checksum) <==> row in ledger && !HasKey(row, id, checksum)
    ensures |DeleteRollbackRows(ledger, id, checksum)| + |Matching(ledger, id, checksum)| == |ledger|
    decreases |ledger|
  {
    if |ledger| > 0 {
      DeleteRollbackRowsMembers(ledger[1..], id, checksum);
      assert ledger == [ledger[0]] + ledger[1..];
    }
  }

  /**
   * After deleting a key, that key has no rows and every other key keeps
   * exactly the rows it had (same rows, same order).
   */
  lemma {:induction false} DeleteRollbackRowsFrame(ledger: seq<LedgerRow>, id: string, checksum: string,
                                                   otherId: string, otherChecksum: string)
    ensures Matching(DeleteRollbackRows(ledger, id, checksum), otherId, otherChecksum)
         == if otherId == id && otherChecksum == checksum then [] else Matching(ledger, otherId, otherChecksum)
    decreases |ledger|
  {
    if |ledger| > 0 {
      DeleteRollbackRowsFrame(ledger[1..], id, checksum, otherId, otherChecksum);
      var head := if HasKey(ledger[0], id, checksum) then [] else [ledger[0]];
      MatchingAppend(head, DeleteRollbackRows(ledger[1..], id, checksum), otherId, otherChecksum);
    }
  }

  lemma DeleteRollbackRowsCons(x: LedgerRow, s: seq<LedgerRow>, id: string, checksum: string)
    ensures DeleteRollbackRows([x] + s, id, checksum)
         == (if HasKey(x, id, checksum) then [] else [x]) + DeleteRollbackRows(s, id, checksum)
  {
    assert ([x] + s)[1..] == s;
  }

  lemma {:induction false} DeleteRollbackRowsAppend(a: seq<LedgerRow>, b: seq<LedgerRow>, id: string, checksum: string)
    ensures DeleteRollbackRows(a + b, id, checksum) == DeleteRollbackRows(a, id, checksum) + DeleteRollbackRows(b, id, checksum)
    decreases |a|
  {
    if |a| == 0 {
      assert a + b == b;
    } else {
      DeleteRollbackRowsAppend(a[1..], b, id, checksum);
      DeleteRollbackRowsAppendStep(a, b, id, checksum);
    }
  }

  lemma DeleteRollbackRowsAppendStep(a: seq<LedgerRow>, b: seq<LedgerRow>, id: string, checksum: string)
    requires |a| > 0
    requires DeleteRollbackRows(a[1..] + b, id, checksum)
          == DeleteRollbackRows(a[1..], id, checksum) + DeleteRollbackRows(b, id, checksum)
    ensures DeleteRollbackRows(a + b, id, checksum) == DeleteRollbackRows(a, id, checksum) + DeleteRollbackRows(b, id, checksum)
  {
    var x, tail := a[0], a[1..];
    assert a == [x] + tail;
    assert a + b == [x] + (tail + b);
    DeleteRollbackRowsCons(x, tail + b, id, checksum);
    DeleteRollbackRowsCons(x, tail, id, checksum);
  }

  /** Deleting a key removes exactly its rows: a table without them is left as it is, and a table of only them is emptied. */
  lemma {:induction false} DeleteRollbackRowsExact(ledger: seq<LedgerRow>, id: string, checksum: string)
    ensures Matching(ledger, id, checksum) == [] ==> DeleteRollbackRows(ledger, id, checksum) == ledger
    ensures (forall i :: 0 <= i < |ledger| ==> HasKey(ledger[i], id, checksum)) ==>
              DeleteRollbackRows(ledger, id, checksum) == []
    decreases |ledger|
  {
    if |ledger| > 0 {
      DeleteRollbackRowsExact(ledger[1..], id, checksum);
      assert ledger == [ledger[0]] + ledger[1..];
      if Matching(ledger, id, checksum) == [] {
        assert ledger[0] !in Matching(ledger, id, checksum);
      }
    }
  }

  /** The delete of the changelog rows matching both ID and MD5SUM; every other row stays. */
  function DeleteChangelogRows(changelog: seq<ChangelogRow>, id: string, md5sum: string): (r: seq<ChangelogRow>)
    ensures forall row :: row in r <==> row in changelog && !(row.id == id && row.md5sum == md5sum)
    ensures |r| <= |changelog|
  {
    if |changelog| == 0 then []
    else
      (if changelog[0].id == id && changelog[0].md5sum == md5sum then [] else [changelog[0]])
      + DeleteChangelogRows(changelog[1..], id, md5sum)
  }

  /**
   * Two rows occupy the same slot of the table's unique index on
   * (CHANGELOGID, CHANGELOGCHKSUM, ROLLBACKSTMTORDER).
   */
  predicate SameSlot(a: LedgerRow, b: LedgerRow)
  {
    a.changesetId == b.changesetId && a.checksum == b.checksum && a.stmtOrder == b.stmtOrder
  }

  /**
   * Every row from position `from` on takes a slot no earlier row holds:
   * the inserts that appended those rows, one by one, all pass the index.
   */
  predicate FitsIndex(ledger: seq<LedgerRow>, from: int)
  {
    forall i, j :: 0 <= i < j < |ledger| && from <= j ==> !SameSlot(ledger[i], ledger[j])
  }

  /** The index invariant of the whole table. */
  predicate SlotsUnique(ledger: seq<LedgerRow>)
  {
    FitsIndex(ledger, 0)
  }

  /** Appending in two steps passes the index exactly when each step does. */
  lemma FitsIndexSplit(a: seq<LedgerRow>, b: seq<LedgerRow>, c: seq<LedgerRow>)
    requires |a| <= |b| <= |c| && b[..|a|] == a && c[..|b|] == b
    ensures FitsIndex(c, |a|) <==> FitsIndex(b, |a|) && FitsIndex(c, |b|)
  {
    assert forall i :: 0 <= i < |b| ==> c[i] == b[i] by {
      forall i | 0 <= i < |b| ensures c[i] == b[i] {
        assert c[..|b|][i] == c[i];
      }
    }
  }

  /** A table with the index invariant keeps it when one more row goes in front that clashes with none. */
  lemma SlotsUniqueCons(x: LedgerRow, s: seq<LedgerRow>)
    ensures SlotsUnique([x] + s) <==> SlotsUnique(s) && forall k :: 0 <= k < |s| ==> !SameSlot(x, s[k])
  {
    var t := [x] + s;
    if SlotsUnique(s) && forall k :: 0 <= k < |s| ==> !SameSlot(x, s[k]) {
      forall i, j | 0 <= i < j < |t|
        ensures !SameSlot(t[i], t[j])
      {
        if i > 0 {
          assert t[i] == s[i - 1] && t[j] == s[j - 1];
        } else {
          assert t[j] == s[j - 1];
        }
      }
    }
    if SlotsUnique(t) {
      forall i, j | 0 <= i < j < |s|
        ensures !SameSlot(s[i], s[j])
      {
        assert s[i] == t[i + 1] && s[j] == t[j + 1];
      }
      forall k | 0 <= k < |s|
        ensures !SameSlot(x, s[k])
      {
        assert t[0] == x && s[k] == t[k + 1];
        assert !SameSlot(t[0], t[k + 1]);
      }
    }
  }

  /** Deleting a key keeps the index invariant. */
  lemma {:induction false} DeleteRollbackRowsKeepsSlotsUnique(ledger: seq<LedgerRow>, id: string, checksum: string)
    requires SlotsUnique(ledger)
    ensures SlotsUnique(DeleteRollbackRows(ledger, id, checksum))
    decreases |ledger|
  {
    if |ledger| > 0 {
      var head, tail := ledger[0], ledger[1..];
      assert ledger == [head] + tail;
      SlotsUniqueCons(head, tail);
      DeleteRollbackRowsKeepsSlotsUnique(tail, id, checksum);
      var rest := DeleteRollbackRows(tail, id, checksum);
      if !HasKey(head, id, checksum) {
        DeleteRollbackRowsMembers(tail, id, checksum);
        forall k | 0 <= k < |rest|
          ensures !SameSlot(head, rest[k])
        {
          assert rest[k] in rest;
          var m :| 0 <= m < |tail| && tail[m] == rest[k];
        }
        SlotsUniqueCons(head, rest);
      } else {
        assert [] + rest == rest;
      }
    }
  }

  /** One insert batch, numbered from 1, under a key that has no rows yet passes the unique index. */
  lemma InsertFitsIndex(ledger: seq<LedgerRow>, id: string, checksum: string, stmts: seq<string>)
    requires Matching(ledger, id, checksum) == []
    ensures FitsIndex(InsertRollbackStatements(ledger, id, checksum, stmts), |ledger|)
  {
    var r := InsertRollbackStatements(ledger, id, checksum, stmts);
    forall i, j | 0 <= i < j < |r| && |ledger| <= j
      ensures !SameSlot(r[i], r[j])
    {
      assert r[j] == LedgerRow(id, checksum, stmts[j - |ledger|], j - |ledger| + 1);
      if i < |ledger| {
        assert r[i] == r[..|ledger|][i] == ledger[i];
        assert ledger[i] !in Matching(ledger, id, checksum);
      } else {
        assert r[i] == LedgerRow(id, checksum, stmts[i - |ledger|], i - |ledger| + 1);
      }
    }
  }
}
