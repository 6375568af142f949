/**
 * The SELECT statement record the drift-reversal driver builds to read the
 * ledger. In the source it is a mutable object whose builder methods return
 * `this`; here each builder is a total function from a statement to the
 * updated statement, so a chain of calls is a composition of functions.
 */
module SelectStatements {
  import opened Common

  /** A WHERE parameter: the source passes `Object...`; the drivers pass strings, the tests also integers. */
  datatype Param = TextParam(text: string) | IntParam(n: int)

  datatype SelectStatement = SelectStatement(
    catalogName: Option<string>,
    schemaName: Option<string>,
    tableName: Option<string>,
    columnsToSelect: seq<string>,
    where: Option<string>,
    whereColumnNames: seq<string>,
    whereParameters: seq<Param>,
    orderBy: Option<string>)

  /** The fields a builder call may touch. */
  datatype Field = Columns | Where | WhereColumns | WhereParams | OrderBy

  /** `s` and `t` agree on every field except (possibly) `f`. */
  predicate AgreeExcept(s: SelectStatement, t: SelectStatement, f: Field)
  {
    && s.catalogName == t.catalogName
    && s.schemaName == t.schemaName
    && s.tableName == t.tableName
    && (f == Columns || s.columnsToSelect == t.columnsToSelect)
    && (f == Where || s.where == t.where)
    && (f == WhereColumns || s.whereColumnNames == t.whereColumnNames)
    && (f == WhereParams || s.whereParameters == t.whereParameters)
    && (f == OrderBy || s.orderBy == t.orderBy)
  }

  /** The constructor: names are stored, lists start empty, `where` and `orderBy` start null. */
  function NewSelectStatement(catalogName: Option<string>, schemaName: Option<string>, tableName: Option<string>): (s: SelectStatement)
    ensures s.catalogName == catalogName && s.schemaName == schemaName && s.tableName == tableName
    ensures |s.columnsToSelect| == 0 && |s.whereColumnNames| == 0 && |s.whereParameters| == 0
    ensures s.where.None? && s.orderBy.None?
  {
    SelectStatement(catalogName, schemaName, tableName, [], None, [], [], None)
  }

  function AddColumnsToSelect(s: SelectStatement, columnNames: seq<string>): (r: SelectStatement)
    ensures AgreeExcept(s, r, Columns)
    ensures |r.columnsToSelect| == |s.columnsToSelect| + |columnNames|
    ensures r.columnsToSelect[..|s.columnsToSelect|] == s.columnsToSelect
    ensures r.columnsToSelect[|s.columnsToSelect|..] == columnNames
  {
    s.(columnsToSelect := s.columnsToSelect + columnNames)
  }

  function SetWhere(s: SelectStatement, where: Option<string>): (r: SelectStatement)
    ensures AgreeExcept(s, r, Where)
    ensures r.where == where
  {
    s.(where := where)
  }

  function AddWhereColumnNames(s: SelectStatement, columnNames: seq<string>): (r: SelectStatement)
    ensures AgreeExcept(s, r, WhereColumns)
    ensures |r.whereColumnNames| == |s.whereColumnNames| + |columnNames|
    ensures r.whereColumnNames[..|s.whereColumnNames|] == s.whereColumnNames
    ensures r.whereColumnNames[|s.whereColumnNames|..] == columnNames
  {
    s.(whereColumnNames := s.whereColumnNames + columnNames)
  }

  function AddWhereParameters(s: SelectStatement, parameters: seq<Param>): (r: SelectStatement)
    ensures AgreeExcept(s, r, WhereParams)
    ensures |r.whereParameters| == |s.whereParameters| + |parameters|
    ensures r.whereParameters[..|s.whereParameters|] == s.whereParameters
    ensures r.whereParameters[|s.whereParameters|..] == parameters
  {
    s.(whereParameters := s.whereParameters + parameters)
  }

  function SetOrderBy(s: SelectStatement, orderBy: Option<string>): (r: SelectStatement)
    ensures AgreeExcept(s, r, OrderBy)
    ensures r.orderBy == orderBy
  {
    s.(orderBy := orderBy)
  }

  /** Two appends to the column list are one append of the concatenation. */
  lemma AddColumnsToSelectTwice(s: SelectStatement, a: seq<string>, b: seq<string>)
    ensures AddColumnsToSelect(AddColumnsToSelect(s, a), b) == AddColumnsToSelect(s, a + b)
  {
    assert s.columnsToSelect + a + b == s.columnsToSelect + (a + b);
  }

  lemma AddWhereColumnNamesTwice(s: SelectStatement, a: seq<string>, b: seq<string>)
    ensures AddWhereColumnNames(AddWhereColumnNames(s, a), b) == AddWhereColumnNames(s, a + b)
  {
    assert s.whereColumnNames + a + b == s.whereColumnNames + (a + b);
  }

  lemma AddWhereParametersTwice(s: SelectStatement, a: seq<Param>, b: seq<Param>)
    ensures AddWhereParameters(AddWhereParameters(s, a), b) == AddWhereParameters(s, a + b)
  {
    assert s.whereParameters + a + b == s.whereParameters + (a + b);
  }

  /** The setters overwrite: only the last value set survives. */
  lemma SetWhereTwice(s: SelectStatement, w1: Option<string>, w2: Option<string>)
    ensures SetWhere(SetWhere(s, w1), w2) == SetWhere(s, w2)
  {
  }

  lemma SetOrderByTwice(s: SelectStatement, o1: Option<string>, o2: Option<string>)
    ensures SetOrderBy(SetOrderBy(s, o1), o2) == SetOrderBy(s, o2)
  {
  }

  /**
   * Builder calls on different fields commute: each touches only its own
   * field, so the order of a chain matters only among calls on the same field.
   */
  lemma BuildersOnDistinctFieldsCommute(s: SelectStatement, cols: seq<string>, where: Option<string>,
                                        whereCols: seq<string>, params: seq<Param>, orderBy: Option<string>)
    ensures SetWhere(AddColumnsToSelect(s, cols), where) == AddColumnsToSelect(SetWhere(s, where), cols)
    ensures AddWhereColumnNames(SetWhere(s, where), whereCols) == SetWhere(AddWhereColumnNames(s, whereCols), where)
    ensures AddWhereParameters(AddWhereColumnNames(s, whereCols), params)
         == AddWhereColumnNames(AddWhereParameters(s, params), whereCols)
    ensures SetOrderBy(AddWhereParameters(s, params), orderBy) == AddWhereParameters(SetOrderBy(s, orderBy), params)
    ensures SetOrderBy(AddColumnsToSelect(s, cols), orderBy) == AddColumnsToSelect(SetOrderBy(s, orderBy), cols)
    ensures AddWhereColumnNames(AddColumnsToSelect(s, cols), whereCols)
         == AddColumnsToSelect(AddWhereColumnNames(s, whereCols), cols)
    ensures AddWhereParameters(AddColumnsToSelect(s, cols), params) == AddColumnsToSelect(AddWhereParameters(s, params), cols)
    ensures AddWhereParameters(SetWhere(s, where), params) == SetWhere(AddWhereParameters(s, params), where)
    ensures SetOrderBy(SetWhere(s, where), orderBy) == SetWhere(SetOrderBy(s, orderBy), where)
    ensures SetOrderBy(AddWhereColumnNames(s, whereCols), orderBy) == AddWhereColumnNames(SetOrderBy(s, orderBy), whereCols)
  {
  }

  /** The chain of the source's own builder test: every value set along the chain is read back. */
  lemma ChainedBuilderReadsBack()
    ensures var s := SetOrderBy(
                       AddWhereParameters(
                         AddWhereColumnNames(
                           SetWhere(
                             AddColumnsToSelect(NewSelectStatement(Some("cat"), Some("sch"), Some("tbl")), ["col1"]),
                             Some(":name = :value")),
                           ["col2"]),
                         [IntParam(123)]),
                       Some("col3"));
            && s.tableName == Some("tbl")
            && s.columnsToSelect == ["col1"]
            && s.where == Some(":name = :value")
            && s.whereColumnNames == ["col2"]
            && s.whereParameters == [IntParam(123)]
            && s.orderBy == Some("col3")
  {
  }
}
