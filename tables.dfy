/** The table and column records of Table.py and the CREATE TABLE text that
    `SqlTools.generate_sql_create_table` assembles, for Hive and PostgreSQL,
    by driving an IteratorFactory through zip, map and join. */
module Tables {
  import opened Wrappers
  import opened Errors
  import opened Values
  import opened Text
  import opened FactorySpec
  import opened MyDataStructure

  /** `Column`: three parallel lists of names, types and comments. */
  datatype Column = Column(columnNameList: seq<string>, columnTypeList: seq<string>, columnCommentList: seq<string>)

  /** `Table`; `column` is None when the table was built without one. */
  datatype Table = Table(
    tableName: string,
    schemaName: string,
    column: Option<Column>,
    tableComment: string,
    delimiter: string,
    fileType: string)

  /** `Table.if_add_dot`: the dot between schema and table name, if there is a schema. */
  function IfAddDot(table: Table): (r: string)
    ensures r == "" <==> table.schemaName == ""
    ensures r != "" ==> r == "."
  {
    if table.schemaName == "" then "" else "."
  }

  /** `<schema><dot><table>` */
  function QualifiedName(table: Table): string
  {
    table.schemaName + IfAddDot(table) + table.tableName
  }

  /** The opening line both dialects share, up to the parenthesis. */
  function CreatePrefix(table: Table): string
  {
    "CREATE TABLE IF NOT EXISTS " + QualifiedName(table) + " ("
  }

  // ---------------------------------------------------------------------
  // The text of each column line, stated on the column lists

  function HiveColumnLine(name: string, colType: string, comment: string): string
  {
    "\t" + name + "\t" + colType + "\tCOMMENT '" + comment + "'"
  }

  function PgColumnLine(name: string, colType: string): string
  {
    "\t" + name + "\t" + colType
  }

  function PgCommentLine(table: Table, name: string, comment: string): string
  {
    "COMMENT ON COLUMN " + QualifiedName(table) + "." + name + " IS '" + comment + "';"
  }

  /** All three lists have one entry per column, and there is a column. */
  predicate Aligned(c: Column)
  {
    && |c.columnNameList| > 0
    && |c.columnTypeList| == |c.columnNameList|
    && |c.columnCommentList| == |c.columnNameList|
  }

  /** The Hive column block: line i built from name i, type i and comment i. */
  function HiveColumnBlock(c: Column): string
    requires Aligned(c)
  {
    var n := |c.columnNameList|;
    JoinStrings(seq(n, i requires 0 <= i < n =>
      HiveColumnLine(c.columnNameList[i], c.columnTypeList[i], c.columnCommentList[i])), ",\n")
  }

  function PgColumnBlock(c: Column): string
    requires Aligned(c)
  {
    var n := |c.columnNameList|;
    JoinStrings(seq(n, i requires 0 <= i < n => PgColumnLine(c.columnNameList[i], c.columnTypeList[i])), ",\n")
  }

  function PgCommentBlock(table: Table, c: Column): string
    requires Aligned(c)
  {
    var n := |c.columnNameList|;
    JoinStrings(seq(n, i requires 0 <= i < n =>
      PgCommentLine(table, c.columnNameList[i], c.columnCommentList[i])), "\n")
  }

  /** The Hive statement around a column block: the opening line, the block,
      then the table comment, the field delimiter and the storage format. */
  function HiveDdl(table: Table, columnInfo: string): (r: string)
    ensures var head := CreatePrefix(table) + "\n" + columnInfo;
      && |head| <= |r| && r[..|head|] == head
    ensures r[|r| - 2..] == "\n;"
  {
    CreatePrefix(table) + "\n" + columnInfo + "\n) COMMENT '" + table.tableComment + "'"
    + "\nROW FORMAT DELIMITED FIELDS TERMINATED BY '" + table.delimiter + "'"
    + "\nSTORED AS " + table.fileType + "\n;"
  }

  /** The PostgreSQL statement: the opening line and the column block, the
      table comment, then the column comments as its last line(s). */
  function PgDdl(table: Table, columnInfo: string, columnComments: string): (r: string)
    ensures var head := CreatePrefix(table) + "\n" + columnInfo;
      && |head| <= |r| && r[..|head|] == head
    ensures |columnComments| < |r| && r[|r| - |columnComments| - 1..] == "\n" + columnComments
  {
    CreatePrefix(table) + "\n" + columnInfo + "\n);"
    + "\nCOMMENT ON TABLE " + QualifiedName(table) + " IS '" + table.tableComment + "';"
    + "\n" + columnComments
  }

  // ---------------------------------------------------------------------
  // The lambdas handed to `map`. After the zips every element is a list of
  // strings of the right arity; other shapes, where Python's indexing would
  // raise, are left unchanged.

  /** The Hive column line of a [name, type, comment] list. */
  function HiveFormat(elem: Value): (r: Value)
    ensures r != elem <==> elem.ListV? && |elem.items| >= 3
    ensures r != elem ==> r == Str(HiveColumnLine(Show(elem.items[0]), Show(elem.items[1]), Show(elem.items[2])))
  {
    match elem
    case ListV(items) =>
      if |items| >= 3 then Str(HiveColumnLine(Show(items[0]), Show(items[1]), Show(items[2]))) else elem
    case _ => elem
  }

  /** The PostgreSQL column line of a [name, type] list. */
  function PgFormat(elem: Value): (r: Value)
    ensures r != elem <==> elem.ListV? && |elem.items| >= 2
    ensures r != elem ==> r == Str(PgColumnLine(Show(elem.items[0]), Show(elem.items[1])))
  {
    match elem
    case ListV(items) => if |items| >= 2 then Str(PgColumnLine(Show(items[0]), Show(items[1]))) else elem
    case _ => elem
  }

  /** The COMMENT ON COLUMN statement of a [name, comment] list, which also
      names the table. */
  function PgCommentFormat(table: Table, elem: Value): (r: Value)
    ensures r != elem <==> elem.ListV? && |elem.items| >= 2
    ensures r != elem ==> r == Str(PgCommentLine(table, Show(elem.items[0]), Show(elem.items[1])))
  {
    match elem
    case ListV(items) => if |items| >= 2 then Str(PgCommentLine(table, Show(items[0]), Show(items[1]))) else elem
    case _ => elem
  }

  // ---------------------------------------------------------------------
  // What the factory holds at each step, and why the join gives the block

  lemma HiveRows(c: Column)
    requires Aligned(c)
    ensures
      var names, types, comments := StrValues(c.columnNameList), StrValues(c.columnTypeList), StrValues(c.columnCommentList);
      var n := |names|;
      JoinStrings(Shown(Mapped(HiveFormat, AppendedUpTo(Pairs(names, types), comments, n))), ",\n")
        == HiveColumnBlock(c)
  {
    var names, types, comments := StrValues(c.columnNameList), StrValues(c.columnTypeList), StrValues(c.columnCommentList);
    var n := |names|;
    var zipped := AppendedUpTo(Pairs(names, types), comments, n);
    var lines := Shown(Mapped(HiveFormat, zipped));
    var expected := seq(n, i requires 0 <= i < n =>
      HiveColumnLine(c.columnNameList[i], c.columnTypeList[i], c.columnCommentList[i]));
    forall i | 0 <= i < n ensures lines[i] == expected[i] {
      assert zipped[i] == ListV([names[i], types[i]] + [comments[i]]);
    }
    assert lines == expected;
  }

  lemma PgRows(table: Table, c: Column)
    requires Aligned(c)
    ensures
      var names, types, comments := StrValues(c.columnNameList), StrValues(c.columnTypeList), StrValues(c.columnCommentList);
      && JoinStrings(Shown(Mapped(PgFormat, Pairs(names, types))), ",\n") == PgColumnBlock(c)
      && JoinStrings(Shown(Mapped(v => PgCommentFormat(table, v), Pairs(names, comments))), "\n")
           == PgCommentBlock(table, c)
  {
    var names, types, comments := StrValues(c.columnNameList), StrValues(c.columnTypeList), StrValues(c.columnCommentList);
    var n := |names|;
    var lines := Shown(Mapped(PgFormat, Pairs(names, types)));
    var expected := seq(n, i requires 0 <= i < n => PgColumnLine(c.columnNameList[i], c.columnTypeList[i]));
    assert lines == expected;
    var commentLines := Shown(Mapped(v => PgCommentFormat(table, v), Pairs(names, comments)));
    var expectedComments := seq(n, i requires 0 <= i < n =>
      PgCommentLine(table, c.columnNameList[i], c.columnCommentList[i]));
    assert commentLines == expectedComments;
  }

  /** `SqlTools.generate_sql_create_table`. The dialect is checked first, then
      the presence of column information; the factory then reports an empty
      name list (as its type error) and lists of unequal length (as its zip
      error), unchanged. */
  method GenerateSqlCreateTable(table: Table, sqlType: string) returns (r: Result<string, Error>)
    ensures sqlType != "hive" && sqlType != "pg" ==> r == Err(SqlTypeNotSupport(sqlType))
    ensures (sqlType == "hive" || sqlType == "pg") && table.column.None? ==> r == Err(MissImportantTableInfo)
    ensures (sqlType == "hive" || sqlType == "pg") && table.column.Some? ==>
      var c := table.column.value;
      var n := |c.columnNameList|;
      && (n == 0 ==> r == Err(ElemTypeNotSame({})))
      && (n > 0 && |c.columnTypeList| != n ==> r == Err(LengthNotMatchToZip))
      && (n > 0 && |c.columnTypeList| == n && |c.columnCommentList| != n ==> r == Err(LengthNotMatchToZip))
      && (Aligned(c) && sqlType == "hive" ==> r == Ok(HiveDdl(table, HiveColumnBlock(c))))
      && (Aligned(c) && sqlType == "pg" ==> r == Ok(PgDdl(table, PgColumnBlock(c), PgCommentBlock(table, c))))
    ensures r.Ok? ==> CreatePrefix(table) <= r.value
  {
    if sqlType != "hive" && sqlType != "pg" {
      return Err(SqlTypeNotSupport(sqlType));
    } else if table.column.None? {
      return Err(MissImportantTableInfo);
    }
    var c := table.column.value;
    r := CreateTableWithColumns(table, c, sqlType == "hive");
    if Aligned(c) {
      DdlPrefix(table, HiveColumnBlock(c), PgColumnBlock(c), PgCommentBlock(table, c));
    }
  }

  /** Both statements open with the same line. */
  lemma DdlPrefix(table: Table, columnInfo: string, pgColumnInfo: string, columnComments: string)
    ensures CreatePrefix(table) <= HiveDdl(table, columnInfo)
    ensures CreatePrefix(table) <= PgDdl(table, pgColumnInfo, columnComments)
  {
    var pre := CreatePrefix(table);
    assert HiveDdl(table, columnInfo)[..|pre|] == pre;
    assert PgDdl(table, pgColumnInfo, columnComments)[..|pre|] == pre;
  }

  /** The two dialect branches of the generator, once the column information
      is known to be present. */
  method CreateTableWithColumns(table: Table, c: Column, hive: bool) returns (r: Result<string, Error>)
    ensures
      var n := |c.columnNameList|;
      && (n == 0 ==> r == Err(ElemTypeNotSame({})))
      && (n > 0 && |c.columnTypeList| != n ==> r == Err(LengthNotMatchToZip))
      && (n > 0 && |c.columnTypeList| == n && |c.columnCommentList| != n ==> r == Err(LengthNotMatchToZip))
      && (Aligned(c) && hive ==> r == Ok(HiveDdl(table, HiveColumnBlock(c))))
      && (Aligned(c) && !hive ==> r == Ok(PgDdl(table, PgColumnBlock(c), PgCommentBlock(table, c))))
  {
    var names := StrValues(c.columnNameList);
    if names == [] {
      assert TypeSet(names) == {};
    }
    var made := IteratorFactory.New(names);
    if made.Err? {
      return Err(made.error);
    }
    var columnInfo := made.value;
    var zipped := columnInfo.Zip(StrValues(c.columnTypeList), true);
    if zipped.Err? {
      return Err(zipped.error);
    }
    if hive {
      zipped := columnInfo.Zip(StrValues(c.columnCommentList), true);
      if zipped.Err? {
        return Err(zipped.error);
      }
      var mapped := columnInfo.Map(HiveFormat, true);
      var columnInfoStr := columnInfo.Join(",\n");
      HiveRows(c);
      return Ok(HiveDdl(table, columnInfoStr));
    } else {
      var mapped := columnInfo.Map(PgFormat, true);
      var columnInfoStr := columnInfo.Join(",\n");
      var columnCommentStr := PgComments(table, c);
      if columnCommentStr.Err? {
        return Err(columnCommentStr.error);
      }
      PgRows(table, c);
      return Ok(PgDdl(table, columnInfoStr, columnCommentStr.value));
    }
  }

  /** The PostgreSQL comment block, built by a second factory over the names. */
  method PgComments(table: Table, c: Column) returns (r: Result<string, Error>)
    requires |c.columnNameList| > 0
    ensures |c.columnCommentList| != |c.columnNameList| ==> r == Err(LengthNotMatchToZip)
    ensures |c.columnCommentList| == |c.columnNameList| ==>
      var names, comments := StrValues(c.columnNameList), StrValues(c.columnCommentList);
      r == Ok(JoinStrings(Shown(Mapped(v => PgCommentFormat(table, v), Pairs(names, comments))), "\n"))
  {
    var made := IteratorFactory.New(StrValues(c.columnNameList));
    var columnComment := made.value;
    var zipped := columnComment.Zip(StrValues(c.columnCommentList), true);
    if zipped.Err? {
      return Err(zipped.error);
    }
    var mapped := columnComment.Map(v => PgCommentFormat(table, v), true);
    return Ok(columnComment.Join("\n"));
  }
}
