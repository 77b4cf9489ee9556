/**
 * `get_table__sql_create`: the DDL text for one table, built from its
 * column schema (the result of the catalog query, supplied as input).
 */
module CreateTable {
  import opened Wrappers
  import opened SqlText
  import opened TypeMapping

  /** The first four lines: comment, DROP, CREATE and the injected primary key. */
  function Preamble(name: string, sanitised: string): seq<string>
  {
    [ "-- TABLE " + name,
      "DROP TABLE " + sanitised + ";",
      "CREATE TABLE " + sanitised + " (",
      "    id bigserial PRIMARY KEY," ]
  }

  /** The declaration line of column `k`: a comma follows all but the last. */
  function ColumnLine(data: seq<Column>, k: nat): string
    requires k < |data|
  {
    "    " + data[k].name + " " + DeclaredType(data[k]) + (if k < |data| - 1 then "," else "")
  }

  /** The declaration lines of the first `n` columns. */
  function ColumnLines(data: seq<Column>, n: nat): (r: seq<string>)
    requires n <= |data|
    ensures |r| == n
  {
    seq(n, k requires 0 <= k < n => ColumnLine(data, k))
  }

  /** One more column line extends the list by that line. */
  lemma ColumnLinesSnoc(data: seq<Column>, n: nat)
    requires n < |data|
    ensures ColumnLines(data, n + 1) == ColumnLines(data, n) + [ColumnLine(data, n)]
  {
  }

  /** All lines of the DDL text; the closing `);` is followed by one empty line. */
  function DdlLines(schema: string, table: string, pgSchema: Option<string>, data: seq<Column>): seq<string>
  {
    var name := QualifiedName(schema, table, pgSchema);
    Preamble(name, ReplaceHyphens(name)) + ColumnLines(data, |data|) + [");", ""]
  }

  /** The error raised when the catalog knows no column of the table. */
  function NotFound(schema: string, table: string): Error
  {
    ValueError("database \"" + schema + "." + table + "\" not found")
  }

  /** What `get_table__sql_create` returns or raises for a given column schema. */
  function SqlCreate(schema: string, table: string, pgSchema: Option<string>, data: seq<Column>): (r: Result<string, Error>)
    ensures r.Failure? <==> data == []
    ensures r.Failure? ==> r.error == NotFound(schema, table)
  {
    if data == [] then Failure(NotFound(schema, table))
    else Success(Unlines(DdlLines(schema, table, pgSchema, data)))
  }

  /** Builds the DDL text line by line, as the source does with `sql +=`. */
  method GetTableSqlCreate(schema: string, table: string, pgSchema: Option<string>, data: seq<Column>)
    returns (r: Result<string, Error>)
    ensures r == SqlCreate(schema, table, pgSchema, data)
  {
    var target := TargetSchema(schema, pgSchema);
    if data == [] {
      return Failure(NotFound(schema, table));
    }
    var schemaTable := target + "." + table;
    var sql := "-- TABLE " + schemaTable + "\n";
    schemaTable := ReplaceHyphens(schemaTable);
    sql := sql + "DROP TABLE " + schemaTable + ";\n";
    sql := sql + "CREATE TABLE " + schemaTable + " (\n";
    sql := sql + "    id bigserial PRIMARY KEY,\n";
    ghost var pre := Preamble(target + "." + table, schemaTable);
    PreambleText(target + "." + table, schemaTable);
    assert pre + ColumnLines(data, 0) == pre;
    var count := 0;
    while count < |data|
      invariant 0 <= count <= |data|
      invariant sql == Unlines(pre + ColumnLines(data, count))
    {
      ghost var start := sql;
      sql := sql + "    ";
      var column := data[count];
      var pgDataType := PgType(column.dataType);
      if pgDataType == "numeric" {
        pgDataType := pgDataType + "(" + FormatField(column.numericPrecision) + "," + FormatField(column.numericScale) + ")";
      }
      sql := sql + column.name + " " + pgDataType;
      if count < |data| - 1 {
        sql := sql + ",";
      }
      sql := sql + "\n";
      ColumnStep(pre, data, count, start, pgDataType);
      count := count + 1;
    }
    ClosingText(pre + ColumnLines(data, |data|));
    sql := sql + ");\n\n";
    r := Success(sql);
  }

  /** The four preamble lines, as the source writes them with their newlines. */
  lemma PreambleText(name: string, san: string)
    ensures "-- TABLE " + name + "\n" + "DROP TABLE " + san + ";\n" + "CREATE TABLE " + san + " (\n"
        + "    id bigserial PRIMARY KEY,\n"
        == Unlines(Preamble(name, san))
  {
    Unlines4("-- TABLE " + name, "DROP TABLE " + san + ";", "CREATE TABLE " + san + " (",
      "    id bigserial PRIMARY KEY,");
    var s0 := "-- TABLE " + name + "\n";
    Regroup(s0, "DROP TABLE " + san, ";\n");
    assert ";\n" == ";" + "\n";
    Regroup("DROP TABLE " + san, ";", "\n");
    var s1 := s0 + ("DROP TABLE " + san + ";" + "\n");
    assert s0 + "DROP TABLE " + san + ";\n" == s1;
    Regroup(s1, "CREATE TABLE " + san, " (\n");
    assert " (\n" == " (" + "\n";
    Regroup("CREATE TABLE " + san, " (", "\n");
    assert "    id bigserial PRIMARY KEY,\n" == "    id bigserial PRIMARY KEY," + "\n";
  }

  /** Writing one column's declaration appends its line to the text. */
  lemma ColumnStep(pre: seq<string>, data: seq<Column>, count: nat, start: string, pgDataType: string)
    requires count < |data|
    requires start == Unlines(pre + ColumnLines(data, count))
    requires pgDataType == DeclaredType(data[count])
    ensures start + "    " + data[count].name + " " + pgDataType
      + (if count < |data| - 1 then "," else "") + "\n"
      == Unlines(pre + ColumnLines(data, count + 1))
  {
    var line := ColumnLine(data, count);
    var sep := if count < |data| - 1 then "," else "";
    Regroup(start, "    ", data[count].name);
    Regroup(start, "    " + data[count].name, " ");
    Regroup(start, "    " + data[count].name + " ", pgDataType);
    Regroup(start, "    " + data[count].name + " " + pgDataType, sep);
    assert start + "    " + data[count].name + " " + pgDataType + sep == start + line;
    ColumnLinesSnoc(data, count);
    assert pre + ColumnLines(data, count + 1) == pre + ColumnLines(data, count) + [line];
    UnlinesSnoc(pre + ColumnLines(data, count), line);
  }

  /** The closing `);` and the blank line after it. */
  lemma ClosingText(body: seq<string>)
    ensures Unlines(body) + ");\n\n" == Unlines(body + [");", ""])
  {
    UnlinesSnoc(body, ");");
    UnlinesSnoc(body + [");"], "");
    assert body + [");"] + [""] == body + [");", ""];
  }

  /** Every piece of the DDL text is free of newlines when its inputs are. */
  predicate SingleLineInputs(schema: string, table: string, pgSchema: Option<string>, data: seq<Column>)
  {
    && '\n' !in TargetSchema(schema, pgSchema) && '\n' !in table
    && forall k :: 0 <= k < |data| ==> '\n' !in data[k].name && '\n' !in data[k].dataType
  }

  /**
   * Read back line by line, the DDL text of a non-empty schema is exactly
   * its list of lines: no name or type splits a line or joins two.
   */
  lemma SqlCreateLines(schema: string, table: string, pgSchema: Option<string>, data: seq<Column>)
    requires data != []
    requires SingleLineInputs(schema, table, pgSchema, data)
    ensures SqlCreate(schema, table, pgSchema, data).Success?
    ensures Lines(SqlCreate(schema, table, pgSchema, data).value) == DdlLines(schema, table, pgSchema, data)
  {
    DdlLinesSingle(schema, table, pgSchema, data);
    LinesUnlines(DdlLines(schema, table, pgSchema, data));
  }

  /**
   * The lines of the DDL: the comment naming the unsanitised
   * `pg_schema.table`, `DROP TABLE` (without `IF EXISTS`) and `CREATE TABLE`
   * naming it with hyphens replaced, the injected `id bigserial PRIMARY KEY,`,
   * then one four-space-indented `name type` line per column in schema order
   * with a comma after all but the last, then `);` and an empty line.
   */
  lemma DdlLinesAt(schema: string, table: string, pgSchema: Option<string>, data: seq<Column>)
    ensures var lines := DdlLines(schema, table, pgSchema, data);
      var name := TargetSchema(schema, pgSchema) + "." + table;
      && |lines| == |data| + 6
      && lines[0] == "-- TABLE " + name
      && lines[1] == "DROP TABLE " + ReplaceHyphens(name) + ";"
      && lines[2] == "CREATE TABLE " + ReplaceHyphens(name) + " ("
      && lines[3] == "    id bigserial PRIMARY KEY,"
      && (forall k :: 0 <= k < |data| ==>
            lines[4 + k] == "    " + data[k].name + " " + DeclaredType(data[k]) +
                            (if k < |data| - 1 then "," else ""))
      && lines[|data| + 4] == ");"
      && lines[|data| + 5] == ""
  {
  }

  /** No line of the DDL holds a newline when no input does. */
  lemma DdlLinesSingle(schema: string, table: string, pgSchema: Option<string>, data: seq<Column>)
    requires SingleLineInputs(schema, table, pgSchema, data)
    ensures forall i :: 0 <= i < |DdlLines(schema, table, pgSchema, data)| ==>
      '\n' !in DdlLines(schema, table, pgSchema, data)[i]
  {
    var name := QualifiedName(schema, table, pgSchema);
    assert '\n' !in name;
    ReplaceHyphensClean(name);
    var pre := Preamble(name, ReplaceHyphens(name));
    PreambleSingle(name, ReplaceHyphens(name));
    var cols := ColumnLines(data, |data|);
    ColumnLinesSingle(data);
    var ls := DdlLines(schema, table, pgSchema, data);
    assert ls == pre + cols + [");", ""];
    forall i | 0 <= i < |ls| ensures '\n' !in ls[i] {
      if i < 4 {
        assert ls[i] == pre[i];
      } else if i < |data| + 4 {
        assert ls[i] == cols[i - 4];
      } else {
        assert ls[i] in [");", ""];
      }
    }
  }

  /** The preamble lines hold no newline when the names hold none. */
  lemma PreambleSingle(name: string, san: string)
    requires '\n' !in name && '\n' !in san
    ensures forall i :: 0 <= i < 4 ==> '\n' !in Preamble(name, san)[i]
  {
    var pre := Preamble(name, san);
    assert '\n' !in pre[0] && '\n' !in pre[1] && '\n' !in pre[2];
  }

  /** The column lines hold no newline when no name or type does. */
  lemma ColumnLinesSingle(data: seq<Column>)
    requires forall k :: 0 <= k < |data| ==> '\n' !in data[k].name && '\n' !in data[k].dataType
    ensures forall k :: 0 <= k < |data| ==> '\n' !in ColumnLines(data, |data|)[k]
  {
    forall k | 0 <= k < |data| ensures '\n' !in ColumnLines(data, |data|)[k] {
      DeclaredTypeCases(data[k]);
      assert ColumnLines(data, |data|)[k] == ColumnLine(data, k);
    }
  }

  /**
   * Whatever the names hold, the text begins with the comment line naming
   * `pg_schema.table` and ends with `);` and a blank line.
   */
  lemma SqlCreateFrame(schema: string, table: string, pgSchema: Option<string>, data: seq<Column>)
    requires data != []
    ensures var text := SqlCreate(schema, table, pgSchema, data).value;
      var header := "-- TABLE " + TargetSchema(schema, pgSchema) + "." + table + "\n";
      && header <= text
      && |text| >= 4
      && text[|text| - 4..] == ");\n\n"
  {
    var ls := DdlLines(schema, table, pgSchema, data);
    DdlLinesAt(schema, table, pgSchema, data);
    UnlinesFirst(ls);
    var name := QualifiedName(schema, table, pgSchema);
    var body := Preamble(name, ReplaceHyphens(name)) + ColumnLines(data, |data|);
    var close, empty := ");", "";
    assert ls == body + [close] + [empty];
    UnlinesLastTwo(body, close, empty);
    var init := Unlines(body);
    assert close + "\n" + empty + "\n" == ");\n\n";
    assert init + close + "\n" + empty + "\n" == init + (close + "\n" + empty + "\n") by {
      Regroup(init, close, "\n");
      Regroup(init + close + "\n", empty, "\n");
      Regroup(init, close + "\n", empty);
      Regroup(init, close + "\n" + empty, "\n");
    }
  }
}
