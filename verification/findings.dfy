/**
 * Two ways the precomputation driver, as written, stores a row in a slot
 * the ledger's unique index on (CHANGELOGID, CHANGELOGCHKSUM,
 * ROLLBACKSTMTORDER) already holds, so that the insert is refused and the
 * run aborts; and, for each, the storage the driver evidently intends,
 * with the property it should have.
 */
module Findings {
  import opened Common
  import opened Ledger
  import opened Changesets
  import opened Customizer

  // ---------------------------------------------------------------------------
  // Custom rollback numbering restarts for every rollback change
  // ---------------------------------------------------------------------------

  /**
   * As written: a custom rollback of two changes that each generate one
   * statement is stored as two rows both numbered 1, and the second insert
   * is refused. Every run that finds such a changeset unrun aborts.
   */
  lemma CustomRollbackRejected(db: Db, id: string, checksum: string, path: string, first: string, second: string,
                               changes: seq<Change>)
    requires db.tableExists
    ensures var cs := UnrunChangeSet(id, checksum, path, [[first], [second]], changes);
            PersistRollbackStatements(db, [cs]) == Aborted(InsertRejected(id), db, [])
  {
    var cs := UnrunChangeSet(id, checksum, path, [[first], [second]], changes);
    var next := PersistChangeSet(db.ledger, cs);
    var n := |db.ledger|;
    assert RestartNumbered(id, checksum, [[second]]) == NumberedRows(id, checksum, [second], 1) + [];
    assert next[n..] == [LedgerRow(id, checksum, first, 1), LedgerRow(id, checksum, second, 1)];
    assert next[n] == next[n..][0] && next[n + 1] == next[n..][1];
    assert SameSlot(next[n], next[n + 1]);
    assert !FitsIndex(next, n);
  }

  /**
   * Corrected: a changeset's whole compensation, custom or derived, is one
   * insert batch numbered 1..n, so a key that had no rows gets rows that
   * pass the index and read back in exactly the stored order.
   */
  function PersistChangeSetNumbered(ledger: seq<LedgerRow>, cs: UnrunChangeSet): (r: seq<LedgerRow>)
    ensures |r| >= |ledger| && r[..|ledger|] == ledger
    ensures Texts(r[|ledger|..]) == Compensation(cs)
    ensures Matching(ledger, cs.id, cs.checksum) == [] ==>
              && FitsIndex(r, |ledger|)
              && FetchRollbackStatements(r, cs.id, cs.checksum) == Compensation(cs)
  {
    var r := InsertRollbackStatements(ledger, cs.id, cs.checksum, Compensation(cs));
    assert Texts(r[|ledger|..]) == Compensation(cs);
    FreshKeyInsert(ledger, cs.id, cs.checksum, Compensation(cs));
    r
  }

  lemma FreshKeyInsert(ledger: seq<LedgerRow>, id: string, checksum: string, stmts: seq<string>)
    ensures Matching(ledger, id, checksum) == [] ==>
              && FitsIndex(InsertRollbackStatements(ledger, id, checksum, stmts), |ledger|)
              && FetchRollbackStatements(InsertRollbackStatements(ledger, id, checksum, stmts), id, checksum) == stmts
  {
    if Matching(ledger, id, checksum) == [] {
      InsertFitsIndex(ledger, id, checksum, stmts);
      FetchAfterInsert(ledger, id, checksum, stmts);
    }
  }

  /** Without custom rollback the corrected storage is the one the driver already has. */
  lemma NumberedAgreesWithoutCustomRollback(ledger: seq<LedgerRow>, cs: UnrunChangeSet)
    requires !HasCustomRollbackChanges(cs)
    ensures PersistChangeSetNumbered(ledger, cs) == PersistChangeSet(ledger, cs)
  {
    PersistDerivedRows(ledger, cs);
  }

  // ---------------------------------------------------------------------------
  // Persisting a changeset that is still unrun a second time
  // ---------------------------------------------------------------------------

  /** The first row a custom rollback stores is numbered 1. */
  lemma {:induction false} RestartNumberedStartsAtOne(id: string, checksum: string, perChange: seq<seq<string>>)
    requires |RestartNumbered(id, checksum, perChange)| > 0
    ensures RestartNumbered(id, checksum, perChange)[0].stmtOrder == 1
    decreases |perChange|
  {
    if |perChange[0]| == 0 {
      assert NumberedRows(id, checksum, perChange[0], 1) == [];
      RestartNumberedStartsAtOne(id, checksum, perChange[1..]);
    }
  }

  /** Whatever a changeset stores, its first new row is `(id, checksum, _, 1)`. */
  lemma FirstStoredRow(ledger: seq<LedgerRow>, cs: UnrunChangeSet)
    requires Compensation(cs) != []
    ensures var r := PersistChangeSet(ledger, cs);
            |r| > |ledger| && HasKey(r[|ledger|], cs.id, cs.checksum) && r[|ledger|].stmtOrder == 1
  {
    var r := PersistChangeSet(ledger, cs);
    assert |Texts(r[|ledger|..])| > 0;
    assert r[|ledger|] == r[|ledger|..][0];
    if HasCustomRollbackChanges(cs) {
      RestartNumberedStartsAtOne(cs.id, cs.checksum, cs.customRollback);
    }
  }

  /**
   * As written: the rows of an unrun changeset are committed before the
   * engine applies it. If the changeset is still unrun at the next run (the
   * update failed, or the process stopped in between), the driver inserts
   * the same rows again and the index refuses the first of them, so every
   * later run aborts until the rows are removed by hand.
   */
  lemma RepersistRejected(db: Db, cs: UnrunChangeSet)
    requires db.tableExists
    requires Compensation(cs) != []
    ensures var again := db.(ledger := PersistChangeSet(db.ledger, cs));
            PersistRollbackStatements(again, [cs]) == Aborted(InsertRejected(cs.id), again, [])
  {
    var l0 := db.ledger;
    var l1 := PersistChangeSet(l0, cs);
    var l2 := PersistChangeSet(l1, cs);
    FirstStoredRow(l0, cs);
    FirstStoredRow(l1, cs);
    assert l2[|l0|] == l2[..|l1|][|l0|] == l1[|l0|];
    assert SameSlot(l2[|l0|], l2[|l1|]);
    assert !FitsIndex(l2, |l1|);
  }

  /**
   * Corrected: a key that already has rows is stored once and left as it
   * is; otherwise the whole compensation goes in as one numbered batch. The
   * inserts always pass the index.
   */
  function PersistChangeSetOnce(ledger: seq<LedgerRow>, cs: UnrunChangeSet): (r: seq<LedgerRow>)
    ensures |r| >= |ledger| && r[..|ledger|] == ledger
    ensures FitsIndex(r, |ledger|)
    ensures Matching(ledger, cs.id, cs.checksum) != [] ==> r == ledger
    ensures Matching(ledger, cs.id, cs.checksum) == [] ==>
              FetchRollbackStatements(r, cs.id, cs.checksum) == Compensation(cs)
  {
    if Matching(ledger, cs.id, cs.checksum) != [] then ledger
    else PersistChangeSetNumbered(ledger, cs)
  }

  /** Persisting the same changeset again changes nothing. */
  lemma PersistChangeSetOnceIdempotent(ledger: seq<LedgerRow>, cs: UnrunChangeSet)
    ensures PersistChangeSetOnce(PersistChangeSetOnce(ledger, cs), cs) == PersistChangeSetOnce(ledger, cs)
  {
    var once := PersistChangeSetOnce(ledger, cs);
    if Matching(ledger, cs.id, cs.checksum) == [] {
      var stmts := Compensation(cs);
      if stmts == [] {
        assert once == ledger;
      } else {
        assert FetchRollbackStatements(once, cs.id, cs.checksum) != [];
        assert Matching(once, cs.id, cs.checksum) != [];
      }
    }
  }

  /**
   * The precomputation driver with the corrected storage: no insert is
   * ever refused, so precomputation cannot abort a run.
   */
  function PrecomputeOnce(ledger: seq<LedgerRow>, css: seq<UnrunChangeSet>): (r: seq<LedgerRow>)
    ensures |r| >= |ledger| && r[..|ledger|] == ledger
    ensures FitsIndex(r, |ledger|)
    decreases |css|
  {
    if |css| == 0 then ledger
    else
      var next := PersistChangeSetOnce(ledger, css[0]);
      var r := PrecomputeOnce(next, css[1..]);
      FitsIndexSplit(ledger, next, r);
      r
  }

  /**
   * With the corrected storage the round trip holds for every changeset,
   * custom rollback included: reversal replays its compensation in declared
   * order and restores the ledger.
   */
  lemma CorrectedPersistThenReverse(db: Db, cs: UnrunChangeSet, orderExecuted: int, fails: string -> bool)
    requires db.tableExists
    requires Matching(db.ledger, cs.id, cs.checksum) == []
    requires forall s :: s in Compensation(cs) ==> !fails(s)
    ensures var persisted := db.(ledger := PersistChangeSetOnce(db.ledger, cs));
            var r := ReverseChangeSet(persisted, UnexpectedChangeSet(cs.id, Some(cs.checksum), orderExecuted), fails);
            && r.Completed?
            && r.db.executed == db.executed + Compensation(cs)
            && r.db.ledger == db.ledger
  {
    var stmts := Compensation(cs);
    var r := InsertRollbackStatements(db.ledger, cs.id, cs.checksum, stmts);
    assert r == db.ledger + NumberedRows(cs.id, cs.checksum, stmts, 1) by {
      assert r[|db.ledger|..] == NumberedRows(cs.id, cs.checksum, stmts, 1);
      assert r == r[..|db.ledger|] + r[|db.ledger|..];
    }
    ReverseNumbered(db.(ledger := r), db.ledger, UnexpectedChangeSet(cs.id, Some(cs.checksum), orderExecuted),
                    stmts, fails);
  }
}
