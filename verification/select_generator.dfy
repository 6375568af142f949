/**
 * Validation of a SELECT statement and its rendering to SQL text. The
 * dialect-specific parts (identifier escaping and the substitution of
 * `:name`/`:value` placeholders) belong to the database engine and are
 * parameters of the model: a `Database` value carries them as functions.
 */
module SelectGenerator {
  import opened Common
  import opened SelectStatements

  const TableNameRequired: string := "tableName is required"
  const NoColumnsToSelect: string := "No columnsToSelect defined"
  const WhereColumnNamesWithoutWhere: string := "whereColumnNames set but no where clause"
  const WhereParametersWithoutWhere: string := "whereParameters set but no where clause"

  /** The engine services the generator calls. */
  datatype Database = Database(
    escapeColumnName: (Option<string>, Option<string>, Option<string>, string) -> string,
    escapeTableName: (Option<string>, Option<string>, Option<string>) -> string,
    replacePredicatePlaceholders: (string, seq<string>, seq<Param>) -> string)

  datatype Relation = Table(name: Option<string>, catalogName: Option<string>, schemaName: Option<string>)

  /** One generated SQL statement and the table it touches. */
  datatype Sql = UnparsedSql(text: string, affectedTable: Relation)

  /** What a statement must satisfy for validation to report nothing. */
  predicate WellFormed(s: SelectStatement)
  {
    && s.tableName.Some?
    && |s.columnsToSelect| > 0
    && (s.where.None? ==> |s.whereColumnNames| == 0 && |s.whereParameters| == 0)
  }

  function Validate(s: SelectStatement): (errors: seq<string>)
    ensures TableNameRequired in errors <==> s.tableName.None?
    ensures NoColumnsToSelect in errors <==> |s.columnsToSelect| == 0
    ensures WhereColumnNamesWithoutWhere in errors <==> s.where.None? && |s.whereColumnNames| > 0
    ensures WhereParametersWithoutWhere in errors <==> s.where.None? && |s.whereParameters| > 0
    ensures forall e :: e in errors ==>
              e == TableNameRequired || e == NoColumnsToSelect
              || e == WhereColumnNamesWithoutWhere || e == WhereParametersWithoutWhere
    ensures |errors| == 0 <==> WellFormed(s)
  {
    (if s.tableName.None? then [TableNameRequired] else [])
    + (if |s.columnsToSelect| == 0 then [NoColumnsToSelect] else [])
    + (if s.where.None? then
         (if |s.whereColumnNames| > 0 then [WhereColumnNamesWithoutWhere] else [])
         + (if |s.whereParameters| > 0 then [WhereParametersWithoutWhere] else [])
       else [])
  }

  /** `Collectors.joining(sep)`. */
  function Join(parts: seq<string>, sep: string): string
  {
    if |parts| == 0 then ""
    else if |parts| == 1 then parts[0]
    else Join(parts[..|parts| - 1], sep) + sep + parts[|parts| - 1]
  }

  function EscapedColumns(s: SelectStatement, db: Database): (r: seq<string>)
    ensures |r| == |s.columnsToSelect|
  {
    seq(|s.columnsToSelect|, i requires 0 <= i < |s.columnsToSelect| =>
      db.escapeColumnName(s.catalogName, s.schemaName, s.tableName, s.columnsToSelect[i]))
  }

  /** `SELECT <escaped columns, in list order> FROM <escaped table>`. */
  function SelectHead(s: SelectStatement, db: Database): string
  {
    "SELECT " + Join(EscapedColumns(s, db), ", ") + " FROM "
    + db.escapeTableName(s.catalogName, s.schemaName, s.tableName)
  }

  function WhereSuffix(s: SelectStatement, db: Database): string
  {
    if s.where.Some? then
      " WHERE " + db.replacePredicatePlaceholders(s.where.value, s.whereColumnNames, s.whereParameters)
    else ""
  }

  function OrderBySuffix(s: SelectStatement, db: Database): string
  {
    if s.orderBy.Some? then
      " ORDER BY " + db.escapeColumnName(s.catalogName, s.schemaName, s.tableName, s.orderBy.value)
    else ""
  }

  /** The text `generateSql` is meant to produce: head, then WHERE, then ORDER BY. */
  function SelectText(s: SelectStatement, db: Database): string
  {
    SelectHead(s, db) + WhereSuffix(s, db) + OrderBySuffix(s, db)
  }

  function AffectedTable(s: SelectStatement): Relation
  {
    Table(s.tableName, s.catalogName, s.schemaName)
  }

  /** Builds the text the way the source's `StringBuilder` does, appending piece by piece. */
  method GenerateSql(s: SelectStatement, db: Database) returns (sqls: seq<Sql>)
    ensures |sqls| == 1
    ensures sqls[0].text == SelectText(s, db)
    ensures sqls[0].affectedTable == Table(s.tableName, s.catalogName, s.schemaName)
  {
    var columns := EscapedColumns(s, db);
    var joined := "";
    var i := 0;
    while i < |s.columnsToSelect|
      invariant 0 <= i <= |s.columnsToSelect|
      invariant joined == Join(columns[..i], ", ")
    {
      var name := db.escapeColumnName(s.catalogName, s.schemaName, s.tableName, s.columnsToSelect[i]);
      assert columns[..i + 1][..i] == columns[..i];
      if i > 0 {
        joined := joined + ", ";
      }
      joined := joined + name;
      i := i + 1;
    }
    assert columns[..i] == columns;
    var sql := "SELECT " + joined + " FROM " + db.escapeTableName(s.catalogName, s.schemaName, s.tableName);
    if s.where.Some? {
      sql := sql + " WHERE "
             + db.replacePredicatePlaceholders(s.where.value, s.whereColumnNames, s.whereParameters);
    }
    if s.orderBy.Some? {
      sql := sql + " ORDER BY " + db.escapeColumnName(s.catalogName, s.schemaName, s.tableName, s.orderBy.value);
    }
    sqls := [UnparsedSql(sql, AffectedTable(s))];
  }

  /** The output is the bare head exactly when neither WHERE nor ORDER BY is set. */
  lemma BareHeadIffNoClauses(s: SelectStatement, db: Database)
    ensures SelectText(s, db) == SelectHead(s, db) <==> s.where.None? && s.orderBy.None?
  {
    if s.where.Some? || s.orderBy.Some? {
      assert |SelectText(s, db)| > |SelectHead(s, db)|;
    }
  }

  /** Setting `orderBy` on a statement without one appends exactly ` ORDER BY <escaped column>`. */
  lemma SetOrderByAppendsClause(s: SelectStatement, db: Database, column: string)
    requires s.orderBy.None?
    ensures SelectText(SetOrderBy(s, Some(column)), db)
         == SelectText(s, db) + " ORDER BY " + db.escapeColumnName(s.catalogName, s.schemaName, s.tableName, column)
  {
    var t := SetOrderBy(s, Some(column));
    assert EscapedColumns(t, db) == EscapedColumns(s, db);
  }

  /**
   * Setting `where` on a statement without one inserts the WHERE clause
   * between the head and whatever ORDER BY clause the statement has.
   */
  lemma SetWhereInsertsBeforeOrderBy(s: SelectStatement, db: Database, where: string)
    requires s.where.None?
    ensures SelectText(s, db) == SelectHead(s, db) + OrderBySuffix(s, db)
    ensures SelectText(SetWhere(s, Some(where)), db)
         == SelectHead(s, db)
            + " WHERE " + db.replacePredicatePlaceholders(where, s.whereColumnNames, s.whereParameters)
            + OrderBySuffix(s, db)
  {
    var t := SetWhere(s, Some(where));
    assert EscapedColumns(t, db) == EscapedColumns(s, db);
  }

  /** Adding one column to a non-empty list extends the select list with `, <escaped column>`. */
  lemma AddColumnExtendsSelectList(s: SelectStatement, db: Database, column: string)
    requires |s.columnsToSelect| > 0
    ensures SelectText(AddColumnsToSelect(s, [column]), db)
         == "SELECT " + Join(EscapedColumns(s, db), ", ")
            + ", " + db.escapeColumnName(s.catalogName, s.schemaName, s.tableName, column)
            + " FROM " + db.escapeTableName(s.catalogName, s.schemaName, s.tableName)
            + WhereSuffix(s, db) + OrderBySuffix(s, db)
  {
    var t := AddColumnsToSelect(s, [column]);
    var cs, ct := EscapedColumns(s, db), EscapedColumns(t, db);
    assert t == s.(columnsToSelect := s.columnsToSelect + [column]);
    assert ct[..|ct| - 1] == cs;
    assert Join(ct, ", ") == Join(cs, ", ") + ", " + ct[|ct| - 1];
    assert WhereSuffix(t, db) == WhereSuffix(s, db) && OrderBySuffix(t, db) == OrderBySuffix(s, db);
  }

  /** An engine whose escaping leaves column names alone and qualifies the table by its schema. */
  function SchemaQualifying(replace: (string, seq<string>, seq<Param>) -> string): Database
  {
    Database(
      (catalog: Option<string>, schema: Option<string>, table: Option<string>, name: string) => name,
      (catalog: Option<string>, schema: Option<string>, table: Option<string>) =>
        (if schema.Some? then schema.value + "." else "") + (if table.Some? then table.value else ""),
      replace)
  }

  /** The statement the source's generator test builds, as the builder chain leaves it. */
  lemma GeneratorTestStatement()
    ensures SetOrderBy(
              AddWhereParameters(
                AddWhereColumnNames(
                  SetWhere(
                    AddColumnsToSelect(NewSelectStatement(None, Some("PUBLIC"), Some("DBRB")), ["col1", "col2", "col3"]),
                    Some(":name = :value AND :name = :value")),
                  ["col2", "col3"]),
                [TextParam("test value"), IntParam(123)]),
              Some("stmt_order"))
         == SelectStatement(None, Some("PUBLIC"), Some("DBRB"), ["col1", "col2", "col3"],
                            Some(":name = :value AND :name = :value"), ["col2", "col3"],
                            [TextParam("test value"), IntParam(123)], Some("stmt_order"))
  {
  }

  /** That statement passes validation. */
  lemma GeneratorTestStatementValidates()
    ensures Validate(SelectStatement(None, Some("PUBLIC"), Some("DBRB"), ["col1", "col2", "col3"],
                                     Some(":name = :value AND :name = :value"), ["col2", "col3"],
                                     [TextParam("test value"), IntParam(123)], Some("stmt_order"))) == []
  {
  }

  lemma JoinThree(a: string, b: string, c: string, sep: string)
    ensures Join([a, b, c], sep) == a + sep + b + sep + c
  {
    assert [a, b][..1] == [a];
    assert Join([a, b], sep) == a + sep + b;
    assert [a, b, c][..2] == [a, b];
  }

  /**
   * That statement renders to the text the test expects (written here in
   * the pieces the generator appends), up to the engine's placeholder
   * substitution.
   */
  lemma GeneratorTestQuery(replace: (string, seq<string>, seq<Param>) -> string)
    ensures var s := SelectStatement(None, Some("PUBLIC"), Some("DBRB"), ["col1", "col2", "col3"],
                                     Some(":name = :value AND :name = :value"), ["col2", "col3"],
                                     [TextParam("test value"), IntParam(123)], Some("stmt_order"));
            SelectText(s, SchemaQualifying(replace))
            == "SELECT " + "col1" + ", " + "col2" + ", " + "col3" + " FROM " + "PUBLIC" + "." + "DBRB"
               + " WHERE " + replace(":name = :value AND :name = :value", ["col2", "col3"],
                                     [TextParam("test value"), IntParam(123)])
               + " ORDER BY " + "stmt_order"
  {
    ThreeColumnQuery("col1", "col2", "col3", "PUBLIC", "DBRB", ":name = :value AND :name = :value", ["col2", "col3"],
                     [TextParam("test value"), IntParam(123)], "stmt_order", replace);
  }

  /** The shape of the test's query for any three columns, schema, table, predicate and ordering column. */
  lemma ThreeColumnQuery(c1: string, c2: string, c3: string, schema: string, table: string, where: string,
                         names: seq<string>, params: seq<Param>, order: string,
                         replace: (string, seq<string>, seq<Param>) -> string)
    ensures SelectText(SelectStatement(None, Some(schema), Some(table), [c1, c2, c3], Some(where), names, params, Some(order)),
                       SchemaQualifying(replace))
         == "SELECT " + c1 + ", " + c2 + ", " + c3 + " FROM " + schema + "." + table
            + " WHERE " + replace(where, names, params) + " ORDER BY " + order
  {
    var s := SelectStatement(None, Some(schema), Some(table), [c1, c2, c3], Some(where), names, params, Some(order));
    var db := SchemaQualifying(replace);
    var columns := c1 + ", " + c2 + ", " + c3;
    assert EscapedColumns(s, db) == [c1, c2, c3];
    JoinThree(c1, c2, c3, ", ");
    assert SelectHead(s, db) == "SELECT " + columns + " FROM " + (schema + "." + table);
    assert WhereSuffix(s, db) == " WHERE " + replace(where, names, params);
    assert OrderBySuffix(s, db) == " ORDER BY " + order;
  }
}
