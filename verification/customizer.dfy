/**
 * The two drivers of the compensating-statement ledger and the entry point
 * that runs them: precomputation (`persistRollbackStatements`), drift
 * reversal (`rollbackUnexpectedChangeSets`) and `customize`.
 *
 * Executing a compensating statement against the target schema is modelled
 * by appending it to the database's `executed` trace; whether it fails is
 * an input predicate `fails`. A commit is a snapshot point: when a run
 * aborts, the outcome carries the state as of the last commit.
 */
module Customizer {
  import opened Common
  import opened Sorting
  import opened Ledger
  import opened Changesets
  import opened SelectStatements
  import SelectGenerator

  // ---------------------------------------------------------------------------
  // Precomputation
  // ---------------------------------------------------------------------------

  /** The rows of custom rollback changes inserted one call per change: each change numbered from 1. */
  function RestartNumbered(id: string, checksum: string, perChange: seq<seq<string>>): seq<LedgerRow>
  {
    if |perChange| == 0 then []
    else NumberedRows(id, checksum, perChange[0], 1) + RestartNumbered(id, checksum, perChange[1..])
  }

  /** Custom rollback: one `insertRollbackStatements` call per rollback change, in declared order. */
  function InsertEachRollbackChange(ledger: seq<LedgerRow>, id: string, checksum: string, perChange: seq<seq<string>>)
    : (r: seq<LedgerRow>)
    ensures r == ledger + RestartNumbered(id, checksum, perChange)
    decreases |perChange|
  {
    if |perChange| == 0 then ledger
    else
      var next := InsertRollbackStatements(ledger, id, checksum, perChange[0]);
      var head, rest := NumberedRows(id, checksum, perChange[0], 1), RestartNumbered(id, checksum, perChange[1..]);
      InsertAppendsNumbered(ledger, id, checksum, perChange[0]);
      assert (ledger + head) + rest == ledger + (head + rest);
      InsertEachRollbackChange(next, id, checksum, perChange[1..])
  }

  /**
   * The compensating statements of one unrun changeset, in the order they
   * are stored: its custom rollback if it declares one; nothing for a
   * changeset read from a `.sql` file; otherwise the derived rollback.
   */
  function Compensation(cs: UnrunChangeSet): seq<string>
  {
    if HasCustomRollbackChanges(cs) then Flatten(cs.customRollback)
    else if IsSqlFile(cs.filePath) then []
    else DeriveRollback(cs.changes)
  }

  lemma TextsAppend(a: seq<LedgerRow>, b: seq<LedgerRow>)
    ensures Texts(a + b) == Texts(a) + Texts(b)
  {
  }

  lemma {:induction false} RestartNumberedShape(id: string, checksum: string, perChange: seq<seq<string>>)
    ensures Texts(RestartNumbered(id, checksum, perChange)) == Flatten(perChange)
    ensures forall row :: row in RestartNumbered(id, checksum, perChange) ==> HasKey(row, id, checksum)
    decreases |perChange|
  {
    if |perChange| > 0 {
      var head := NumberedRows(id, checksum, perChange[0], 1);
      RestartNumberedShape(id, checksum, perChange[1..]);
      TextsAppend(head, RestartNumbered(id, checksum, perChange[1..]));
      assert Texts(head) == perChange[0];
    }
  }

  /**
   * The ledger rows one unrun changeset adds: rows are only appended, all
   * under the changeset's key, and their texts in insertion order are the
   * changeset's compensation. A derived rollback is numbered 1..n; custom
   * rollback changes are numbered each from 1.
   */
  function PersistChangeSet(ledger: seq<LedgerRow>, cs: UnrunChangeSet): (r: seq<LedgerRow>)
    ensures |r| >= |ledger| && r[..|ledger|] == ledger
    ensures forall i :: |ledger| <= i < |r| ==> HasKey(r[i], cs.id, cs.checksum)
    ensures Texts(r[|ledger|..]) == Compensation(cs)
    ensures HasCustomRollbackChanges(cs) ==> r[|ledger|..] == RestartNumbered(cs.id, cs.checksum, cs.customRollback)
    ensures !HasCustomRollbackChanges(cs) ==>
              forall i :: |ledger| <= i < |r| ==> r[i].stmtOrder == i - |ledger| + 1
  {
    if HasCustomRollbackChanges(cs) then
      var r := InsertEachRollbackChange(ledger, cs.id, cs.checksum, cs.customRollback);
      RestartNumberedShape(cs.id, cs.checksum, cs.customRollback);
      assert r[|ledger|..] == RestartNumbered(cs.id, cs.checksum, cs.customRollback);
      r
    else if !IsSqlFile(cs.filePath) then
      var r := InsertRollbackStatements(ledger, cs.id, cs.checksum, DeriveRollback(cs.changes));
      assert r[|ledger|..] == NumberedRows(cs.id, cs.checksum, DeriveRollback(cs.changes), 1);
      r
    else
      ledger
  }

  /** The compensations of a list of changesets, concatenated in plan order. */
  function Compensations(css: seq<UnrunChangeSet>): seq<string>
  {
    if |css| == 0 then [] else Compensation(css[0]) + Compensations(css[1..])
  }

  /**
   * The rows each changeset stores on its own, under its own key and with
   * its own numbering, concatenated in plan order.
   */
  function PlanRows(css: seq<UnrunChangeSet>): seq<LedgerRow>
  {
    if |css| == 0 then [] else PersistChangeSet([], css[0]) + PlanRows(css[1..])
  }

  /** What a changeset stores does not depend on the rows already in the table. */
  lemma PersistChangeSetShift(ledger: seq<LedgerRow>, cs: UnrunChangeSet)
    ensures PersistChangeSet(ledger, cs) == ledger + PersistChangeSet([], cs)
  {
    var r := PersistChangeSet(ledger, cs);
    if !HasCustomRollbackChanges(cs) && !IsSqlFile(cs.filePath) {
      InsertAppendsNumbered(ledger, cs.id, cs.checksum, DeriveRollback(cs.changes));
      InsertAppendsNumbered([], cs.id, cs.checksum, DeriveRollback(cs.changes));
    }
    assert r == r[..|ledger|] + r[|ledger|..];
  }

  /** Two successive appends compose: the texts behind `a` in `c` are those `b` added, then those `c` added. */
  lemma AppendedTexts(a: seq<LedgerRow>, b: seq<LedgerRow>, c: seq<LedgerRow>)
    requires |a| <= |b| <= |c| && b[..|a|] == a && c[..|b|] == b
    ensures c[..|a|] == a
    ensures Texts(c[|a|..]) == Texts(b[|a|..]) + Texts(c[|b|..])
  {
    assert c[|a|..] == b[|a|..] + c[|b|..];
    TextsAppend(b[|a|..], c[|b|..]);
  }

  /** Precomputation over the unrun changesets, in plan order. */
  function Precompute(ledger: seq<LedgerRow>, css: seq<UnrunChangeSet>): (r: seq<LedgerRow>)
    ensures |r| >= |ledger| && r[..|ledger|] == ledger
    ensures Texts(r[|ledger|..]) == Compensations(css)
    decreases |css|
  {
    if |css| == 0 then ledger
    else
      var next := PersistChangeSet(ledger, css[0]);
      var r := Precompute(next, css[1..]);
      AppendedTexts(ledger, next, r);
      r
  }

  /**
   * Precomputation appends, changeset by changeset in plan order, exactly
   * the rows each changeset stores on its own: its own key, its own
   * numbering, whatever rows the table already had.
   */
  lemma {:induction false} PrecomputeIsPlanRows(ledger: seq<LedgerRow>, css: seq<UnrunChangeSet>)
    ensures Precompute(ledger, css) == ledger + PlanRows(css)
    decreases |css|
  {
    if |css| > 0 {
      var next := PersistChangeSet(ledger, css[0]);
      PrecomputeIsPlanRows(next, css[1..]);
      PersistChangeSetShift(ledger, css[0]);
      AppendAssociative(ledger, PersistChangeSet([], css[0]), PlanRows(css[1..]));
    }
  }

  /** The row is keyed by one of the changesets. */
  predicate KeyedByOneOf(row: LedgerRow, css: seq<UnrunChangeSet>)
  {
    exists cs :: cs in css && HasKey(row, cs.id, cs.checksum)
  }

  /** Every row precomputation adds is keyed by one of the changesets it was given. */
  lemma {:induction false} PrecomputeKeys(ledger: seq<LedgerRow>, css: seq<UnrunChangeSet>)
    ensures forall i :: |ledger| <= i < |Precompute(ledger, css)| ==> KeyedByOneOf(Precompute(ledger, css)[i], css)
    decreases |css|
  {
    if |css| > 0 {
      var next := PersistChangeSet(ledger, css[0]);
      PrecomputeKeys(next, css[1..]);
      PrecomputeKeysStep(ledger, next, Precompute(next, css[1..]), css);
    }
  }

  lemma PrecomputeKeysStep(ledger: seq<LedgerRow>, next: seq<LedgerRow>, r: seq<LedgerRow>, css: seq<UnrunChangeSet>)
    requires |css| > 0
    requires |ledger| <= |next| <= |r| && r[..|next|] == next
    requires forall i :: |ledger| <= i < |next| ==> HasKey(next[i], css[0].id, css[0].checksum)
    requires forall i :: |next| <= i < |r| ==> KeyedByOneOf(r[i], css[1..])
    ensures forall i :: |ledger| <= i < |r| ==> KeyedByOneOf(r[i], css)
  {
    forall i | |ledger| <= i < |r|
      ensures KeyedByOneOf(r[i], css)
    {
      if i < |next| {
        assert r[i] == r[..|next|][i] == next[i];
        assert css[0] in css && HasKey(r[i], css[0].id, css[0].checksum);
      } else {
        KeyedByTail(r[i], css);
      }
    }
  }

  lemma KeyedByTail(row: LedgerRow, css: seq<UnrunChangeSet>)
    requires |css| > 0
    ensures KeyedByOneOf(row, css[1..]) ==> KeyedByOneOf(row, css)
  {
    if KeyedByOneOf(row, css[1..]) {
      var cs :| cs in css[1..] && HasKey(row, cs.id, cs.checksum);
      assert cs in css;
    }
  }

  /** What the inserts of precomputation leave: the new table, or the changeset whose insert the unique index refused. */
  datatype Persisted = Stored(ledger: seq<LedgerRow>) | Rejected(changesetId: string)

  /**
   * The inserts of precomputation against the unique index, changeset by
   * changeset in plan order. They all pass exactly when the rows the fold
   * appends take slots no earlier row holds; otherwise the first changeset
   * with a clashing row is the one reported.
   */
  function PersistAll(ledger: seq<LedgerRow>, css: seq<UnrunChangeSet>): (r: Persisted)
    ensures r.Stored? <==> FitsIndex(Precompute(ledger, css), |ledger|)
    ensures r.Stored? ==> r.ledger == Precompute(ledger, css)
    ensures r.Rejected? ==> exists cs :: cs in css && cs.id == r.changesetId
    decreases |css|
  {
    if |css| == 0 then Stored(ledger)
    else
      var next := PersistChangeSet(ledger, css[0]);
      PrecomputeStep(ledger, css);
      HeadOrTail(css);
      if !FitsIndex(next, |ledger|) then Rejected(css[0].id)
      else PersistAll(next, css[1..])
  }

  /** Precomputation passes the index exactly when the first changeset's inserts do and the rest's do after them. */
  lemma PrecomputeStep(ledger: seq<LedgerRow>, css: seq<UnrunChangeSet>)
    requires |css| > 0
    ensures var next := PersistChangeSet(ledger, css[0]);
            && Precompute(ledger, css) == Precompute(next, css[1..])
            && (FitsIndex(Precompute(ledger, css), |ledger|)
                <==> FitsIndex(next, |ledger|) && FitsIndex(Precompute(next, css[1..]), |next|))
  {
    var next := PersistChangeSet(ledger, css[0]);
    FitsIndexSplit(ledger, next, Precompute(next, css[1..]));
  }

  // ---------------------------------------------------------------------------
  // Drift reversal
  // ---------------------------------------------------------------------------

  /**
   * Why a run stops: the null checksum the reversal driver dereferences, a
   * replay statement that fails, or an insert the unique index refuses.
   */
  datatype Failure =
    | MissingChecksum(changesetId: string)
    | ReplayFailed(changesetId: string, statement: string)
    | InsertRejected(changesetId: string)

  /**
   * The outcome of a driver or of a whole run. `Aborted` carries the state
   * as of the last commit and the statements of the failing changeset that
   * ran before the failure, which no commit covers.
   */
  datatype Outcome =
    | Completed(db: Db)
    | Aborted(failure: Failure, committed: Db, uncommitted: seq<string>)

  /** The index of the first statement that fails, or `|stmts|` when none does. */
  function FirstFailing(stmts: seq<string>, fails: string -> bool): (k: nat)
    ensures k <= |stmts|
    ensures forall i :: 0 <= i < k ==> !fails(stmts[i])
    ensures k < |stmts| ==> fails(stmts[k])
  {
    if |stmts| == 0 || fails(stmts[0]) then 0 else 1 + FirstFailing(stmts[1..], fails)
  }

  /**
   * One unexpected changeset: look up its compensations by the exact key
   * `(id, lastChecksum)`; if there are none, nothing happens; otherwise
   * replay them in order, then delete its changelog rows and its ledger
   * rows, and commit.
   */
  function ReverseChangeSet(db: Db, u: UnexpectedChangeSet, fails: string -> bool): (r: Outcome)
    requires db.tableExists
    ensures r.Completed? <==>
              u.lastChecksum.Some?
              && forall s :: s in FetchRollbackStatements(db.ledger, u.id, u.lastChecksum.value) ==> !fails(s)
    ensures r.Aborted? ==> r.committed == db && r.failure.changesetId == u.id
    ensures u.lastChecksum.None? ==> r == Aborted(MissingChecksum(u.id), db, [])
    ensures r.Aborted? && u.lastChecksum.Some? ==> r.failure.ReplayFailed?
    ensures r.Aborted? ==> forall s :: s in r.uncommitted ==> !fails(s)
    ensures r.Completed? ==>
              && r.db.tableExists
              && r.db.executed == db.executed + FetchRollbackStatements(db.ledger, u.id, u.lastChecksum.value)
    ensures r.Completed? && Matching(db.ledger, u.id, u.lastChecksum.value) == [] ==> r.db == db
    ensures r.Completed? && Matching(db.ledger, u.id, u.lastChecksum.value) != [] ==>
              && r.db.ledger == DeleteRollbackRows(db.ledger, u.id, u.lastChecksum.value)
              && r.db.changelog == DeleteChangelogRows(db.changelog, u.id, u.lastChecksum.value)
    ensures r.Aborted? && r.failure.ReplayFailed? ==>
              var stmts := FetchRollbackStatements(db.ledger, u.id, u.lastChecksum.value);
              && r.failure.statement in stmts && fails(r.failure.statement)
              && |r.uncommitted| < |stmts| && r.uncommitted == stmts[..|r.uncommitted|]
              && stmts[|r.uncommitted|] == r.failure.statement
  {
    match u.lastChecksum
    case None => Aborted(MissingChecksum(u.id), db, [])
    case Some(checksum) =>
      var stmts := FetchRollbackStatements(db.ledger, u.id, checksum);
      if |stmts| == 0 then Completed(db)
      else
        var k := FirstFailing(stmts, fails);
        if k < |stmts| then Aborted(ReplayFailed(u.id, stmts[k]), db, stmts[..k])
        else
          Completed(Db(db.tableExists,
                       DeleteRollbackRows(db.ledger, u.id, checksum),
                       DeleteChangelogRows(db.changelog, u.id, checksum),
                       db.executed + stmts))
  }

  /** Processes the unexpected changesets one after another; the first abort ends the run. */
  function ReverseAll(db: Db, us: seq<UnexpectedChangeSet>, fails: string -> bool): (r: Outcome)
    requires db.tableExists
    ensures r.Completed? ==> r.db.tableExists
    decreases |us|
  {
    if |us| == 0 then Completed(db)
    else
      match ReverseChangeSet(db, us[0], fails)
      case Aborted(f, committed, uncommitted) => Aborted(f, committed, uncommitted)
      case Completed(next) => ReverseAll(next, us[1..], fails)
  }

  /**
   * When a run aborts, the commits of the changesets processed before the
   * failing one stand: the committed state is what processing exactly those
   * changesets produces, and visiting the failing changeset from that state
   * is the abort itself.
   */
  lemma {:induction false} AbortKeepsEarlierCommits(db: Db, us: seq<UnexpectedChangeSet>, fails: string -> bool)
    requires db.tableExists
    ensures var r := ReverseAll(db, us, fails);
            r.Aborted? ==>
              exists k :: && 0 <= k < |us|
                          && ReverseAll(db, us[..k], fails).Completed?
                          && ReverseAll(db, us[..k], fails).db == r.committed
                          && r.committed.tableExists
                          && ReverseChangeSet(r.committed, us[k], fails) == r
    decreases |us|
  {
    var r := ReverseAll(db, us, fails);
    if |us| > 0 && r.Aborted? {
      var first := ReverseChangeSet(db, us[0], fails);
      if first.Aborted? {
        assert ReverseAll(db, us[..0], fails) == Completed(db);
        assert ReverseChangeSet(db, us[0], fails) == r;
      } else {
        AbortKeepsEarlierCommits(first.db, us[1..], fails);
        var k :| && 0 <= k < |us[1..]|
                 && ReverseAll(first.db, us[1..][..k], fails).Completed?
                 && ReverseAll(first.db, us[1..][..k], fails).db == r.committed
                 && r.committed.tableExists
                 && ReverseChangeSet(r.committed, us[1..][k], fails) == r;
        ReverseAllPrefixStep(db, us, k, fails);
        assert us[1..][k] == us[k + 1];
      }
    }
  }

  /** Processing a prefix of length k + 1 is processing the first changeset, then the next k. */
  lemma ReverseAllPrefixStep(db: Db, us: seq<UnexpectedChangeSet>, k: nat, fails: string -> bool)
    requires db.tableExists && k < |us|
    requires ReverseChangeSet(db, us[0], fails).Completed?
    ensures ReverseAll(db, us[..k + 1], fails) == ReverseAll(ReverseChangeSet(db, us[0], fails).db, us[1..][..k], fails)
  {
    PrefixHeadTail(us, k);
    ReverseAllUnfold(db, us[..k + 1], fails);
  }

  /** One step of the fold, when the first changeset completes. */
  lemma ReverseAllUnfold(db: Db, us: seq<UnexpectedChangeSet>, fails: string -> bool)
    requires db.tableExists && |us| > 0
    requires ReverseChangeSet(db, us[0], fails).Completed?
    ensures ReverseAll(db, us, fails) == ReverseAll(ReverseChangeSet(db, us[0], fails).db, us[1..], fails)
  {
  }

  /**
   * What reversal does to the tables, whatever the outcome of the state it
   * leaves (completed, or committed before an abort): ledger and changelog
   * rows are only removed, the trace only grows, and every statement it
   * gains is the text of a ledger row that existed before.
   */
  predicate OnlyReplaysAndDeletes(before: Db, after: Db)
  {
    && (forall row :: row in after.ledger ==> row in before.ledger)
    && (forall row :: row in after.changelog ==> row in before.changelog)
    && |after.executed| >= |before.executed|
    && after.executed[..|before.executed|] == before.executed
    && (forall i :: |before.executed| <= i < |after.executed| ==> StoredText(before.ledger, after.executed[i]))
  }

  /** Some ledger row holds `stmt`. */
  predicate StoredText(ledger: seq<LedgerRow>, stmt: string)
  {
    exists row :: row in ledger && row.stmtText == stmt
  }

  lemma OnlyReplaysAndDeletesTransitive(a: Db, b: Db, c: Db)
    requires OnlyReplaysAndDeletes(a, b) && OnlyReplaysAndDeletes(b, c)
    ensures OnlyReplaysAndDeletes(a, c)
  {
    forall i | |a.executed| <= i < |c.executed|
      ensures StoredText(a.ledger, c.executed[i])
    {
      if i < |b.executed| {
        assert c.executed[..|b.executed|][i] == c.executed[i];
        assert StoredText(a.ledger, b.executed[i]);
      } else {
        assert StoredText(b.ledger, c.executed[i]);
        var row :| row in b.ledger && row.stmtText == c.executed[i];
        assert row in a.ledger;
      }
    }
    assert c.executed[..|a.executed|] == c.executed[..|b.executed|][..|a.executed|];
  }

  lemma ReverseChangeSetEffects(db: Db, u: UnexpectedChangeSet, fails: string -> bool)
    requires db.tableExists
    ensures var r := ReverseChangeSet(db, u, fails);
            r.Completed? ==> OnlyReplaysAndDeletes(db, r.db)
  {
    var r := ReverseChangeSet(db, u, fails);
    if r.Completed? && Matching(db.ledger, u.id, u.lastChecksum.value) != [] {
      DeleteRollbackRowsMembers(db.ledger, u.id, u.lastChecksum.value);
      var stmts := FetchRollbackStatements(db.ledger, u.id, u.lastChecksum.value);
      forall i | |db.executed| <= i < |r.db.executed|
        ensures StoredText(db.ledger, r.db.executed[i])
      {
        assert r.db.executed[i] == stmts[i - |db.executed|];
        assert stmts[i - |db.executed|] in stmts;
      }
    }
  }

  lemma {:induction false} ReverseAllEffects(db: Db, us: seq<UnexpectedChangeSet>, fails: string -> bool)
    requires db.tableExists
    ensures var r := ReverseAll(db, us, fails);
            && (r.Completed? ==> OnlyReplaysAndDeletes(db, r.db))
            && (r.Aborted? ==> OnlyReplaysAndDeletes(db, r.committed))
    decreases |us|
  {
    if |us| > 0 {
      ReverseChangeSetEffects(db, us[0], fails);
      match ReverseChangeSet(db, us[0], fails)
      case Aborted(_, _, _) =>
      case Completed(next) =>
        ReverseAllEffects(next, us[1..], fails);
        var r := ReverseAll(next, us[1..], fails);
        if r.Completed? {
          OnlyReplaysAndDeletesTransitive(db, next, r.db);
        } else {
          OnlyReplaysAndDeletesTransitive(db, next, r.committed);
        }
    }
  }

  /** The key `(id, checksum)` is the exact key of some changeset in `us`. */
  predicate Targeted(us: seq<UnexpectedChangeSet>, id: string, checksum: string)
  {
    exists i :: 0 <= i < |us| && us[i].id == id && us[i].lastChecksum == Some(checksum)
  }

  /**
   * Rows of other changesets, and rows under other checksums, are untouched:
   * a key that no unexpected changeset names keeps exactly its ledger rows,
   * and a changelog row whose ID and MD5SUM no unexpected changeset names
   * stays.
   */
  lemma {:induction false} ReverseAllFrame(db: Db, us: seq<UnexpectedChangeSet>, fails: string -> bool,
                                           id: string, checksum: string)
    requires db.tableExists
    requires !Targeted(us, id, checksum)
    ensures var r := ReverseAll(db, us, fails);
            && (r.Completed? ==> Matching(r.db.ledger, id, checksum) == Matching(db.ledger, id, checksum))
            && (r.Aborted? ==> Matching(r.committed.ledger, id, checksum) == Matching(db.ledger, id, checksum))
    ensures var r := ReverseAll(db, us, fails);
            r.Completed? ==>
              forall row :: row in db.changelog && row.id == id && row.md5sum == checksum ==> row in r.db.changelog
    decreases |us|
  {
    if |us| > 0 {
      match ReverseChangeSet(db, us[0], fails)
      case Aborted(_, _, _) =>
      case Completed(next) =>
        var u := us[0];
        if Matching(db.ledger, u.id, u.lastChecksum.value) != [] {
          DeleteRollbackRowsFrame(db.ledger, u.id, u.lastChecksum.value, id, checksum);
        }
        assert !Targeted(us[1..], id, checksum) by {
          forall i | 0 <= i < |us[1..]|
            ensures !(us[1..][i].id == id && us[1..][i].lastChecksum == Some(checksum))
          {
            assert us[1..][i] == us[i + 1];
          }
        }
        ReverseAllFrame(next, us[1..], fails, id, checksum);
    }
  }

  /** A completed visit leaves no ledger row under the visited changeset's key. */
  lemma ReverseChangeSetClearsKey(db: Db, u: UnexpectedChangeSet, fails: string -> bool)
    requires db.tableExists
    ensures var r := ReverseChangeSet(db, u, fails);
            r.Completed? ==> u.lastChecksum.Some? && Matching(r.db.ledger, u.id, u.lastChecksum.value) == []
  {
    var r := ReverseChangeSet(db, u, fails);
    if r.Completed? && Matching(db.ledger, u.id, u.lastChecksum.value) != [] {
      DeleteRollbackRowsFrame(db.ledger, u.id, u.lastChecksum.value, u.id, u.lastChecksum.value);
    }
  }

  /** A key without ledger rows stays without rows: reversal never adds any. */
  lemma {:induction false} ReverseAllKeepsKeyCleared(db: Db, us: seq<UnexpectedChangeSet>, fails: string -> bool,
                                                     id: string, checksum: string)
    requires db.tableExists && Matching(db.ledger, id, checksum) == []
    ensures var r := ReverseAll(db, us, fails);
            r.Completed? ==> Matching(r.db.ledger, id, checksum) == []
    decreases |us|
  {
    if |us| > 0 {
      match ReverseChangeSet(db, us[0], fails)
      case Aborted(_, _, _) =>
      case Completed(next) =>
        var u := us[0];
        if Matching(db.ledger, u.id, u.lastChecksum.value) != [] {
          DeleteRollbackRowsFrame(db.ledger, u.id, u.lastChecksum.value, id, checksum);
        }
        ReverseAllKeepsKeyCleared(next, us[1..], fails, id, checksum);
    }
  }

  /**
   * A completed reversal leaves no ledger row under the exact key of any
   * changeset it was given: every targeted changeset had a checksum, and its
   * compensations are gone, whether it had any or not.
   */
  lemma {:induction false} ReverseAllClearsTargets(db: Db, us: seq<UnexpectedChangeSet>, fails: string -> bool)
    requires db.tableExists
    ensures var r := ReverseAll(db, us, fails);
            r.Completed? ==>
              forall u :: u in us ==> u.lastChecksum.Some? && Matching(r.db.ledger, u.id, u.lastChecksum.value) == []
    decreases |us|
  {
    if |us| > 0 {
      match ReverseChangeSet(db, us[0], fails)
      case Aborted(_, _, _) =>
      case Completed(next) =>
        var u := us[0];
        ReverseChangeSetClearsKey(db, u, fails);
        ReverseAllClearsTargets(next, us[1..], fails);
        ReverseAllKeepsKeyCleared(next, us[1..], fails, u.id, u.lastChecksum.value);
        HeadOrTail(us);
    }
  }

  /** Both changesets name the same ledger key. */
  predicate SameKey(u: UnexpectedChangeSet, v: UnexpectedChangeSet)
  {
    u.id == v.id && u.lastChecksum == v.lastChecksum
  }

  /** No two entries of the list name the same ledger key. */
  predicate DistinctKeys(us: seq<UnexpectedChangeSet>)
  {
    && (forall u, v :: u in us && v in us && SameKey(u, v) ==> u == v)
    && (forall u :: u in us ==> multiset(us)[u] <= 1)
  }

  lemma DistinctKeysTail(us: seq<UnexpectedChangeSet>)
    requires |us| > 0 && DistinctKeys(us)
    ensures DistinctKeys(us[1..])
    ensures forall v :: v in us[1..] ==> !SameKey(us[0], v)
  {
    assert us == [us[0]] + us[1..];
    assert multiset(us) == multiset{us[0]} + multiset(us[1..]);
    assert us[0] !in us[1..] by {
      assert multiset(us)[us[0]] == 1 + multiset(us[1..])[us[0]];
    }
    forall v | v in us[1..]
      ensures !SameKey(us[0], v)
    {
      assert v != us[0] && v in us;
    }
    forall u | u in us[1..]
      ensures multiset(us[1..])[u] <= 1
    {
      assert multiset(us[1..])[u] <= multiset(us)[u];
    }
  }

  lemma DistinctKeysPermutation(a: seq<UnexpectedChangeSet>, b: seq<UnexpectedChangeSet>)
    requires multiset(a) == multiset(b) && DistinctKeys(a)
    ensures DistinctKeys(b)
  {
    assert forall u :: u in b <==> u in multiset(b);
    assert forall u :: u in a <==> u in multiset(a);
  }

  /**
   * The statements stored in one table under the exact key of each
   * changeset, concatenated in visiting order; a changeset without a
   * checksum contributes nothing.
   */
  function FetchAll(ledger: seq<LedgerRow>, us: seq<UnexpectedChangeSet>): seq<string>
  {
    if |us| == 0 then []
    else
      var own := match us[0].lastChecksum
                 case None => []
                 case Some(checksum) => FetchRollbackStatements(ledger, us[0].id, checksum);
      own + FetchAll(ledger, us[1..])
  }

  /** Deleting one key does not change what the other keys read back. */
  lemma {:induction false} FetchAllAfterDelete(ledger: seq<LedgerRow>, after: seq<LedgerRow>,
                                               us: seq<UnexpectedChangeSet>, id: string, checksum: string)
    requires after == ledger || after == DeleteRollbackRows(ledger, id, checksum)
    requires forall v :: v in us ==> !(v.id == id && v.lastChecksum == Some(checksum))
    ensures FetchAll(after, us) == FetchAll(ledger, us)
    decreases |us|
  {
    if |us| > 0 {
      assert us == [us[0]] + us[1..];
      FetchAllAfterDelete(ledger, after, us[1..], id, checksum);
      match us[0].lastChecksum
      case None =>
      case Some(c) =>
        DeleteRollbackRowsFrame(ledger, id, checksum, us[0].id, c);
        assert OrderedRows(after, us[0].id, c) == OrderedRows(ledger, us[0].id, c);
    }
  }

  /**
   * A completed reversal over changesets with distinct keys replays, in
   * visiting order, exactly each changeset's statements as the table held
   * them when reversal began.
   */
  lemma {:induction false} ReverseAllReplaysInOrder(db: Db, us: seq<UnexpectedChangeSet>, fails: string -> bool)
    requires db.tableExists && DistinctKeys(us)
    ensures var r := ReverseAll(db, us, fails);
            r.Completed? ==> r.db.executed == db.executed + FetchAll(db.ledger, us)
    decreases |us|
  {
    var r := ReverseAll(db, us, fails);
    if |us| > 0 && r.Completed? {
      var u := us[0];
      var first := ReverseChangeSet(db, u, fails);
      assert first.Completed?;
      var next := first.db;
      var checksum := u.lastChecksum.value;
      var own := FetchRollbackStatements(db.ledger, u.id, checksum);
      DistinctKeysTail(us);
      ReverseAllReplaysInOrder(next, us[1..], fails);
      FetchAllAfterDelete(db.ledger, next.ledger, us[1..], u.id, checksum);
      assert next.executed == db.executed + own;
      AppendAssociative(db.executed, own, FetchAll(db.ledger, us[1..]));
    }
  }

  /** The order `rollbackUnexpectedChangeSets` processes changesets in: descending `orderExecuted`. */
  function ProcessingOrder(us: seq<UnexpectedChangeSet>): (r: seq<UnexpectedChangeSet>)
    ensures multiset(r) == multiset(us)
    ensures forall i, j :: 0 <= i < j < |r| ==> r[i].orderExecuted >= r[j].orderExecuted
  {
    var r := SortByKey(us, (u: UnexpectedChangeSet) => -u.orderExecuted);
    assert forall i, j :: 0 <= i < j < |r| ==> -r[i].orderExecuted <= -r[j].orderExecuted;
    r
  }

  /** `rollbackUnexpectedChangeSets`: every unexpected changeset, most recently executed first. */
  function RollbackUnexpectedChangeSets(db: Db, us: seq<UnexpectedChangeSet>, fails: string -> bool): (r: Outcome)
    requires db.tableExists
    ensures r.Completed? ==> r.db.tableExists && OnlyReplaysAndDeletes(db, r.db)
    ensures r.Aborted? ==> OnlyReplaysAndDeletes(db, r.committed)
    ensures r.Completed? ==>
              forall u :: u in us ==> u.lastChecksum.Some? && Matching(r.db.ledger, u.id, u.lastChecksum.value) == []
    ensures r.Completed? && DistinctKeys(us) ==> r.db.executed == db.executed + FetchAll(db.ledger, ProcessingOrder(us))
  {
    var order := ProcessingOrder(us);
    ReverseAllEffects(db, order, fails);
    ReverseAllClearsTargets(db, order, fails);
    assert forall u :: u in us <==> u in multiset(order);
    ProcessingOrderReplays(db, us, fails);
    ReverseAll(db, order, fails)
  }

  lemma ProcessingOrderReplays(db: Db, us: seq<UnexpectedChangeSet>, fails: string -> bool)
    requires db.tableExists
    ensures var r := ReverseAll(db, ProcessingOrder(us), fails);
            r.Completed? && DistinctKeys(us) ==> r.db.executed == db.executed + FetchAll(db.ledger, ProcessingOrder(us))
  {
    if DistinctKeys(us) {
      DistinctKeysPermutation(us, ProcessingOrder(us));
      ReverseAllReplaysInOrder(db, ProcessingOrder(us), fails);
    }
  }

  /**
   * `persistRollbackStatements`: the ledger gains the compensations of the
   * unrun changesets, in plan order, behind every row it already had; the
   * changelog and the target schema are untouched. It commits once, at the
   * end: when an insert is refused, nothing it inserted is committed.
   */
  function PersistRollbackStatements(db: Db, css: seq<UnrunChangeSet>): (r: Outcome)
    requires db.tableExists
    ensures r.Completed? <==> FitsIndex(Precompute(db.ledger, css), |db.ledger|)
    ensures r.Completed? ==>
              && r.db.tableExists && r.db.changelog == db.changelog && r.db.executed == db.executed
              && |r.db.ledger| >= |db.ledger| && r.db.ledger[..|db.ledger|] == db.ledger
              && Texts(r.db.ledger[|db.ledger|..]) == Compensations(css)
              && r.db.ledger == db.ledger + PlanRows(css)
    ensures r.Completed? && SlotsUnique(db.ledger) ==> SlotsUnique(r.db.ledger)
    ensures r.Aborted? ==> r.failure.InsertRejected? && r.committed == db && r.uncommitted == []
  {
    match PersistAll(db.ledger, css)
    case Rejected(id) => Aborted(InsertRejected(id), db, [])
    case Stored(ledger) =>
      FitsIndexSplit([], db.ledger, ledger);
      PrecomputeIsPlanRows(db.ledger, css);
      Completed(db.(ledger := ledger))
  }

  // ---------------------------------------------------------------------------
  // The entry point
  // ---------------------------------------------------------------------------

  /**
   * `customize`: create the ledger table if needed, then reverse the
   * unexpected changesets, then precompute the unrun ones. An abort during
   * reversal happens before anything is persisted: the committed ledger
   * holds only rows that were there before the run.
   */
  function Customize(db: Db, unexpected: seq<UnexpectedChangeSet>, unrun: seq<UnrunChangeSet>,
                     fails: string -> bool): (r: Outcome)
    ensures r.Completed? ==> r.db.tableExists
    ensures r.Aborted? ==> forall row :: row in r.committed.ledger ==> row in PriorLedger(db)
  {
    var created := CreateRollbackTable(db);
    match RollbackUnexpectedChangeSets(created, unexpected, fails)
    case Aborted(f, committed, uncommitted) => Aborted(f, committed, uncommitted)
    case Completed(reversed) => PersistRollbackStatements(reversed, unrun)
  }

  /** The ledger rows that exist when a run starts: none when the table does not exist yet. */
  function PriorLedger(db: Db): seq<LedgerRow>
  {
    if db.tableExists then db.ledger else []
  }

  /**
   * Reversal runs before precomputation, so a run replays only rows
   * persisted by earlier runs: none when the table is new, and never a row
   * this run persists.
   */
  lemma CustomizeReplaysOnlyEarlierRows(db: Db, unexpected: seq<UnexpectedChangeSet>, unrun: seq<UnrunChangeSet>,
                                        fails: string -> bool)
    ensures var r := Customize(db, unexpected, unrun, fails);
            r.Completed? ==>
              && |r.db.executed| >= |db.executed|
              && r.db.executed[..|db.executed|] == db.executed
              && (forall i :: |db.executed| <= i < |r.db.executed| ==> StoredText(PriorLedger(db), r.db.executed[i]))
  {
    var created := CreateRollbackTable(db);
    var rev := RollbackUnexpectedChangeSets(created, unexpected, fails);
    var r := Customize(db, unexpected, unrun, fails);
    if rev.Completed? && r.Completed? {
      assert r.db.executed == rev.db.executed;
      assert created.ledger == PriorLedger(db);
    }
  }

  /**
   * Every row a completed run persists is still in the ledger at the end,
   * behind the older rows that survived reversal.
   */
  lemma CustomizeKeepsPersistedRows(db: Db, unexpected: seq<UnexpectedChangeSet>, unrun: seq<UnrunChangeSet>,
                                    fails: string -> bool)
    ensures var r := Customize(db, unexpected, unrun, fails);
            r.Completed? ==>
              exists n :: 0 <= n <= |r.db.ledger|
                && (forall row :: row in r.db.ledger[..n] ==> row in PriorLedger(db))
                && Texts(r.db.ledger[n..]) == Compensations(unrun)
  {
    var created := CreateRollbackTable(db);
    var rev := RollbackUnexpectedChangeSets(created, unexpected, fails);
    var r := Customize(db, unexpected, unrun, fails);
    if rev.Completed? && r.Completed? {
      var n := |rev.db.ledger|;
      assert r.db.ledger[..n] == rev.db.ledger;
      assert created.ledger == PriorLedger(db);
    }
  }

  /** Reversal keeps the unique index invariant: it only deletes whole keys. */
  lemma {:induction false} ReverseAllKeepsSlotsUnique(db: Db, us: seq<UnexpectedChangeSet>, fails: string -> bool)
    requires db.tableExists && SlotsUnique(db.ledger)
    ensures var r := ReverseAll(db, us, fails);
            && (r.Completed? ==> SlotsUnique(r.db.ledger))
            && (r.Aborted? ==> SlotsUnique(r.committed.ledger))
    decreases |us|
  {
    if |us| > 0 {
      var u := us[0];
      match ReverseChangeSet(db, u, fails)
      case Aborted(_, _, _) =>
      case Completed(next) =>
        if Matching(db.ledger, u.id, u.lastChecksum.value) != [] {
          DeleteRollbackRowsKeepsSlotsUnique(db.ledger, u.id, u.lastChecksum.value);
        }
        ReverseAllKeepsSlotsUnique(next, us[1..], fails);
    }
  }

  /** A run, completed or aborted, leaves a table that satisfies the unique index if it started with one. */
  lemma CustomizeKeepsSlotsUnique(db: Db, unexpected: seq<UnexpectedChangeSet>, unrun: seq<UnrunChangeSet>,
                                  fails: string -> bool)
    requires SlotsUnique(PriorLedger(db))
    ensures var r := Customize(db, unexpected, unrun, fails);
            && (r.Completed? ==> SlotsUnique(r.db.ledger))
            && (r.Aborted? ==> SlotsUnique(r.committed.ledger))
  {
    var created := CreateRollbackTable(db);
    assert created.ledger == PriorLedger(db);
    ReverseAllKeepsSlotsUnique(created, ProcessingOrder(unexpected), fails);
  }

  /** Without custom rollback, a changeset's rows are its compensation numbered from 1. */
  lemma PersistDerivedRows(ledger: seq<LedgerRow>, cs: UnrunChangeSet)
    requires !HasCustomRollbackChanges(cs)
    ensures PersistChangeSet(ledger, cs) == ledger + NumberedRows(cs.id, cs.checksum, Compensation(cs), 1)
  {
    var r := PersistChangeSet(ledger, cs);
    var added := NumberedRows(cs.id, cs.checksum, Compensation(cs), 1);
    assert r[|ledger|..] == added;
    assert r == r[..|ledger|] + r[|ledger|..];
  }

  /**
   * Reversing a key whose rows are exactly one batch numbered from 1, behind
   * rows of other keys, replays the batch in order and leaves just those
   * other rows.
   */
  lemma ReverseNumbered(db: Db, before: seq<LedgerRow>, u: UnexpectedChangeSet, stmts: seq<string>,
                        fails: string -> bool)
    requires u.lastChecksum.Some?
    requires db.tableExists && db.ledger == before + NumberedRows(u.id, u.lastChecksum.value, stmts, 1)
    requires Matching(before, u.id, u.lastChecksum.value) == []
    requires forall s :: s in stmts ==> !fails(s)
    ensures var r := ReverseChangeSet(db, u, fails);
            && r.Completed?
            && r.db.executed == db.executed + stmts
            && r.db.ledger == before
            && (stmts != [] ==> r.db.changelog == DeleteChangelogRows(db.changelog, u.id, u.lastChecksum.value))
            && (stmts == [] ==> r.db.changelog == db.changelog)
  {
    var checksum := u.lastChecksum.value;
    var added := NumberedRows(u.id, checksum, stmts, 1);
    FetchNumbered(before, u.id, checksum, stmts, 1);
    MatchingAppend(before, added, u.id, checksum);
    MatchingAllKeyed(added, u.id, checksum);
    DeleteRollbackRowsAppend(before, added, u.id, checksum);
    DeleteRollbackRowsExact(before, u.id, checksum);
    DeleteRollbackRowsExact(added, u.id, checksum);
    assert before + [] == before;
  }

  /**
   * The round trip the ledger exists for: persist an unrun changeset
   * without custom rollback, later find it applied but unexpected under the
   * same checksum, and reverse it. Exactly its compensation is replayed, in
   * the stored order, and the ledger returns to what it was before.
   */
  lemma PersistThenReverse(db: Db, cs: UnrunChangeSet, orderExecuted: int, fails: string -> bool)
    requires db.tableExists
    requires !HasCustomRollbackChanges(cs)
    requires Matching(db.ledger, cs.id, cs.checksum) == []
    requires forall s :: s in Compensation(cs) ==> !fails(s)
    ensures var persisted := db.(ledger := PersistChangeSet(db.ledger, cs));
            var r := ReverseChangeSet(persisted, UnexpectedChangeSet(cs.id, Some(cs.checksum), orderExecuted), fails);
            && r.Completed?
            && r.db.executed == db.executed + Compensation(cs)
            && r.db.ledger == db.ledger
            && (Compensation(cs) != [] ==> r.db.changelog == DeleteChangelogRows(db.changelog, cs.id, cs.checksum))
  {
    PersistDerivedRows(db.ledger, cs);
    ReverseNumbered(db.(ledger := PersistChangeSet(db.ledger, cs)), db.ledger,
                    UnexpectedChangeSet(cs.id, Some(cs.checksum), orderExecuted), Compensation(cs), fails);
  }

  /** Of two unexpected changesets, the one executed later (order 7) is reversed first. */
  lemma ProcessingOrderScenario(earlier: UnexpectedChangeSet, later: UnexpectedChangeSet)
    requires earlier.orderExecuted == 5 && later.orderExecuted == 7
    ensures ProcessingOrder([earlier, later]) == [later, earlier]
  {
  }

  /**
   * One changeset (ID-02 under checksum C1, order 5) stored `[dropB, dropA]`
   * in a previous run and is now applied but unexpected, as is a second one
   * (ID-03, order 7) that has nothing stored. The second is visited first
   * and left alone; the first's two statements are replayed in stored order
   * and its changelog row and ledger rows are gone.
   */
  lemma DriftScenario(id2: string, c1: string, id3: string, c3: string, dropA: string, dropB: string,
                      fails: string -> bool)
    requires id2 != id3
    requires !fails(dropA) && !fails(dropB)
    ensures var u2, u3 := UnexpectedChangeSet(id2, Some(c1), 5), UnexpectedChangeSet(id3, Some(c3), 7);
            var db := Db(true, InsertRollbackStatements([], id2, c1, [dropB, dropA]),
                         [ChangelogRow(id2, c1, 5), ChangelogRow(id3, c3, 7)], []);
            RollbackUnexpectedChangeSets(db, [u2, u3], fails)
            == Completed(Db(true, [], [ChangelogRow(id3, c3, 7)], [dropB, dropA]))
  {
    var u2, u3 := UnexpectedChangeSet(id2, Some(c1), 5), UnexpectedChangeSet(id3, Some(c3), 7);
    var db := Db(true, InsertRollbackStatements([], id2, c1, [dropB, dropA]),
                 [ChangelogRow(id2, c1, 5), ChangelogRow(id3, c3, 7)], []);
    ProcessingOrderScenario(u2, u3);
    DriftScenarioUnstored(id2, c1, id3, c3, dropA, dropB, fails);
    DriftScenarioStored(id2, c1, id3, c3, dropA, dropB, fails);
    assert ReverseAll(db, [u3, u2], fails) == ReverseAll(ReverseChangeSet(db, u2, fails).db, [], fails);
  }

  /** The drift scenario's first visit: the changeset with nothing stored is left alone. */
  lemma DriftScenarioUnstored(id2: string, c1: string, id3: string, c3: string, dropA: string, dropB: string,
                              fails: string -> bool)
    requires id2 != id3
    ensures var db := Db(true, InsertRollbackStatements([], id2, c1, [dropB, dropA]),
                         [ChangelogRow(id2, c1, 5), ChangelogRow(id3, c3, 7)], []);
            ReverseChangeSet(db, UnexpectedChangeSet(id3, Some(c3), 7), fails) == Completed(db)
  {
    var rows := InsertRollbackStatements([], id2, c1, [dropB, dropA]);
    InsertAppendsNumbered([], id2, c1, [dropB, dropA]);
    MatchingAllKeyed(rows, id2, c1);
    assert Matching(rows, id3, c3) == [];
  }

  /** The drift scenario's second visit: the stored statements are replayed and every row of the key is gone. */
  lemma DriftScenarioStored(id2: string, c1: string, id3: string, c3: string, dropA: string, dropB: string,
                            fails: string -> bool)
    requires id2 != id3
    requires !fails(dropA) && !fails(dropB)
    ensures var db := Db(true, InsertRollbackStatements([], id2, c1, [dropB, dropA]),
                         [ChangelogRow(id2, c1, 5), ChangelogRow(id3, c3, 7)], []);
            ReverseChangeSet(db, UnexpectedChangeSet(id2, Some(c1), 5), fails)
            == Completed(Db(true, [], [ChangelogRow(id3, c3, 7)], [dropB, dropA]))
  {
    var rows := InsertRollbackStatements([], id2, c1, [dropB, dropA]);
    var db := Db(true, rows, [ChangelogRow(id2, c1, 5), ChangelogRow(id3, c3, 7)], []);
    InsertAppendsNumbered([], id2, c1, [dropB, dropA]);
    assert rows == [] + NumberedRows(id2, c1, [dropB, dropA], 1);
    var u2 := UnexpectedChangeSet(id2, Some(c1), 5);
    ReverseNumbered(db, [], u2, [dropB, dropA], fails);
    DriftScenarioChangelog(id2, c1, id3, c3);
  }

  /** Deleting ID-02's changelog row leaves ID-03's. */
  lemma DriftScenarioChangelog(id2: string, c1: string, id3: string, c3: string)
    requires id2 != id3
    ensures DeleteChangelogRows([ChangelogRow(id2, c1, 5), ChangelogRow(id3, c3, 7)], id2, c1)
         == [ChangelogRow(id3, c3, 7)]
  {
    var log := [ChangelogRow(id2, c1, 5), ChangelogRow(id3, c3, 7)];
    assert log[1..] == [ChangelogRow(id3, c3, 7)];
    assert log[1..][1..] == [];
  }

  // ---------------------------------------------------------------------------
  // The lookup query
  // ---------------------------------------------------------------------------

  const KeyPredicate: string := ":name = :value AND :name = :value"

  /** The SELECT statement the reversal driver builds to read one key's compensations. */
  function LookupQuery(catalog: Option<string>, schema: Option<string>, tableName: string,
                       id: string, checksum: string): (q: SelectStatement)
    ensures SelectGenerator.Validate(q) == []
    ensures q.tableName == Some(tableName) && q.columnsToSelect == [ColRollbackStmt]
    ensures q.whereColumnNames == [ColChangelogId, ColChangelogChecksum]
    ensures q.whereParameters == [TextParam(id), TextParam(checksum)]
    ensures q.where == Some(KeyPredicate) && q.orderBy == Some(ColRollbackStmtOrder)
  {
    var q0 := AddColumnsToSelect(NewSelectStatement(catalog, schema, Some(tableName)), [ColRollbackStmt]);
    var q1 := AddWhereColumnNames(SetWhere(q0, Some(KeyPredicate)), [ColChangelogId, ColChangelogChecksum]);
    SetOrderBy(AddWhereParameters(q1, [TextParam(id), TextParam(checksum)]), Some(ColRollbackStmtOrder))
  }

  /** The lookup query's SQL selects the statement column, matches the key, and orders by statement order. */
  lemma LookupQueryText(engine: SelectGenerator.Database, catalog: Option<string>, schema: Option<string>,
                        tableName: string, id: string, checksum: string)
    ensures var q := LookupQuery(catalog, schema, tableName, id, checksum);
            SelectGenerator.SelectText(q, engine)
            == "SELECT " + engine.escapeColumnName(catalog, schema, Some(tableName), ColRollbackStmt)
               + " FROM " + engine.escapeTableName(catalog, schema, Some(tableName))
               + " WHERE " + engine.replacePredicatePlaceholders(KeyPredicate, [ColChangelogId, ColChangelogChecksum],
                                                                 [TextParam(id), TextParam(checksum)])
               + " ORDER BY " + engine.escapeColumnName(catalog, schema, Some(tableName), ColRollbackStmtOrder)
  {
    var q := LookupQuery(catalog, schema, tableName, id, checksum);
    assert SelectGenerator.EscapedColumns(q, engine)
        == [engine.escapeColumnName(catalog, schema, Some(tableName), ColRollbackStmt)];
  }
}
