/**
 * What the migration engine hands the customizer: changesets it has not run
 * yet, with their forward changes and optional custom rollback, and
 * changesets it has run but no longer finds in the changelog files. The SQL
 * each change generates is an input here, already produced by the engine's
 * generator; so are checksums.
 */
module Changesets {
  import opened Common

  /**
   * A forward change. A raw-SQL change is never asked for its rollback. For
   * any other change, `rollbackSql` is the SQL of its generated rollback
   * statements, or `None` when the engine reports that its rollback is
   * impossible.
   */
  datatype Change = RawSqlChange | StructuredChange(rollbackSql: Option<seq<string>>)

  /**
   * A changeset not yet applied. `customRollback` holds, per custom rollback
   * change in declared order, the SQL the engine generates for it; an empty
   * list means the changeset declares no custom rollback.
   */
  datatype UnrunChangeSet = UnrunChangeSet(
    id: string,
    checksum: string,
    filePath: string,
    customRollback: seq<seq<string>>,
    changes: seq<Change>)

  /** An applied changeset the current changelog no longer declares. */
  datatype UnexpectedChangeSet = UnexpectedChangeSet(id: string, lastChecksum: Option<string>, orderExecuted: int)

  predicate HasCustomRollbackChanges(cs: UnrunChangeSet)
  {
    |cs.customRollback| > 0
  }

  /** `filePath.toLowerCase().endsWith(".sql")`. */
  predicate IsSqlFile(path: string)
  {
    EndsWith(ToLower(path), ".sql")
  }

  predicate Reversible(c: Change)
  {
    c.StructuredChange? && c.rollbackSql.Some?
  }

  /** The stream filter that drops raw-SQL changes, keeping the order of the rest. */
  function DropRawSql(changes: seq<Change>): (r: seq<Change>)
    ensures forall c :: c in r <==> c in changes && !c.RawSqlChange?
  {
    if |changes| == 0 then []
    else (if changes[0].RawSqlChange? then [] else [changes[0]]) + DropRawSql(changes[1..])
  }

  /** The SQL one change contributes: its rollback SQL, or nothing when its rollback is impossible. */
  function RollbackSqlOf(c: Change): seq<string>
  {
    match c
    case StructuredChange(Some(sql)) => sql
    case _ => []
  }

  function GenerateEach(changes: seq<Change>): (r: seq<seq<string>>)
    ensures |r| == |changes|
    ensures forall i :: 0 <= i < |changes| ==> r[i] == RollbackSqlOf(changes[i])
  {
    seq(|changes|, i requires 0 <= i < |changes| => RollbackSqlOf(changes[i]))
  }

  /**
   * The derived rollback of a changeset without custom rollback: its changes
   * reversed, raw SQL dropped, each remaining change's rollback SQL (none for
   * an impossible one) concatenated in that order.
   */
  function DeriveRollback(changes: seq<Change>): seq<string>
  {
    Flatten(GenerateEach(DropRawSql(Reverse(changes))))
  }

  lemma {:induction false} DropRawSqlAppend(a: seq<Change>, b: seq<Change>)
    ensures DropRawSql(a + b) == DropRawSql(a) + DropRawSql(b)
    decreases |a|
  {
    if |a| == 0 {
      assert a + b == b;
    } else {
      assert (a + b)[1..] == a[1..] + b;
      DropRawSqlAppend(a[1..], b);
    }
  }

  lemma GenerateEachAppend(a: seq<Change>, b: seq<Change>)
    ensures GenerateEach(a + b) == GenerateEach(a) + GenerateEach(b)
  {
  }

  /**
   * Later changes are undone first: the rollback of `a + b` is the rollback
   * of `b` followed by the rollback of `a`.
   */
  lemma DeriveRollbackAppend(a: seq<Change>, b: seq<Change>)
    ensures DeriveRollback(a + b) == DeriveRollback(b) + DeriveRollback(a)
  {
    ReverseAppend(a, b);
    DropRawSqlAppend(Reverse(b), Reverse(a));
    GenerateEachAppend(DropRawSql(Reverse(b)), DropRawSql(Reverse(a)));
    FlattenAppend(GenerateEach(DropRawSql(Reverse(b))), GenerateEach(DropRawSql(Reverse(a))));
  }

  /** A single change contributes exactly its own rollback SQL. */
  lemma DeriveRollbackSingle(c: Change)
    ensures DeriveRollback([c]) == RollbackSqlOf(c)
  {
    assert Reverse([c]) == [c];
    assert [c][1..] == [];
    if c.RawSqlChange? {
      assert DropRawSql([c]) == [];
    } else {
      assert DropRawSql([c]) == [c];
      assert GenerateEach([c]) == [RollbackSqlOf(c)];
      assert [RollbackSqlOf(c)][1..] == [];
      assert Flatten([RollbackSqlOf(c)]) == RollbackSqlOf(c) + Flatten([]);
    }
  }

  /** Reference definition: undo the last change first, then the rest. */
  function LastFirst(changes: seq<Change>): seq<string>
  {
    if |changes| == 0 then []
    else RollbackSqlOf(changes[|changes| - 1]) + LastFirst(changes[..|changes| - 1])
  }

  /** The stream pipeline and the last-change-first recursion compute the same list. */
  lemma {:induction false} DeriveRollbackIsLastFirst(changes: seq<Change>)
    ensures DeriveRollback(changes) == LastFirst(changes)
    decreases |changes|
  {
    if |changes| == 0 {
    } else {
      var init, last := changes[..|changes| - 1], changes[|changes| - 1];
      assert changes == init + [last];
      DeriveRollbackAppend(init, [last]);
      DeriveRollbackSingle(last);
      DeriveRollbackIsLastFirst(init);
    }
  }

  /** `stmt` is one of the rollback statements `c` generates. */
  predicate Generates(c: Change, stmt: string)
  {
    Reversible(c) && stmt in c.rollbackSql.value
  }

  /**
   * A statement is derived exactly when some reversible forward change
   * generates it: raw SQL and impossible rollbacks contribute nothing, and
   * nothing else is lost.
   */
  lemma {:induction false} DeriveRollbackMembership(changes: seq<Change>, stmt: string)
    ensures stmt in DeriveRollback(changes) <==> exists i :: 0 <= i < |changes| && Generates(changes[i], stmt)
    decreases |changes|
  {
    if |changes| > 0 {
      var init, last := changes[..|changes| - 1], changes[|changes| - 1];
      assert changes == init + [last];
      DeriveRollbackAppend(init, [last]);
      DeriveRollbackSingle(last);
      assert stmt in RollbackSqlOf(last) <==> Generates(last, stmt);
      DeriveRollbackMembership(init, stmt);
      assert stmt in DeriveRollback(changes) <==> Generates(last, stmt) || stmt in DeriveRollback(init);
      assert forall i :: 0 <= i < |init| ==> init[i] == changes[i];
    }
  }

  function CountReversible(changes: seq<Change>): nat
  {
    if |changes| == 0 then 0
    else (if Reversible(changes[0]) then 1 else 0) + CountReversible(changes[1..])
  }

  /**
   * Partial reversibility: when every reversible change generates a single
   * statement, one statement is stored per reversible change and the others
   * are skipped.
   */
  lemma {:induction false} DeriveRollbackCount(changes: seq<Change>)
    requires forall i :: 0 <= i < |changes| && Reversible(changes[i]) ==> |changes[i].rollbackSql.value| == 1
    ensures |DeriveRollback(changes)| == CountReversible(changes)
    decreases |changes|
  {
    if |changes| > 0 {
      var head, tail := changes[0], changes[1..];
      assert changes == [head] + tail;
      DeriveRollbackAppend([head], tail);
      DeriveRollbackSingle(head);
      DeriveRollbackCount(tail);
    }
  }

  /** Two reversible structural changes are undone in reverse: the second change's rollback comes first. */
  lemma TwoChangesUndoneInReverse(undoFirst: string, undoSecond: string)
    ensures DeriveRollback([StructuredChange(Some([undoFirst])), StructuredChange(Some([undoSecond]))])
         == [undoSecond, undoFirst]
  {
    DeriveRollbackAppend([StructuredChange(Some([undoFirst]))], [StructuredChange(Some([undoSecond]))]);
    DeriveRollbackSingle(StructuredChange(Some([undoFirst])));
    DeriveRollbackSingle(StructuredChange(Some([undoSecond])));
    assert [StructuredChange(Some([undoFirst]))] + [StructuredChange(Some([undoSecond]))]
        == [StructuredChange(Some([undoFirst])), StructuredChange(Some([undoSecond]))];
  }

  /** The file-name test ignores ASCII case. */
  lemma SqlFileTestIgnoresCase()
    ensures IsSqlFile("v2.SQL") && IsSqlFile("v2.Sql") && !IsSqlFile("v2.yaml")
  {
    var upper, mixed := ToLower("v2.SQL"), ToLower("v2.Sql");
    assert upper[2..] == [upper[2], upper[3], upper[4], upper[5]] == ".sql";
    assert mixed[2..] == [mixed[2], mixed[3], mixed[4], mixed[5]] == ".sql";
    assert ToLower("v2.yaml")[3] == 'y';
  }
}
