/**
 * `get_table__sql_dump_data__generator`: the INSERT statement for a table,
 * produced as a stream of text fragments, one per row and a terminator.
 * The column schema and the rows (each paired with the cursor's
 * `rowcount`, as `get_table_data__generator` yields them) are inputs.
 */
module DumpData {
  import opened Wrappers
  import opened SqlText
  import opened TypeMapping
  import opened ValueSerialisation

  /** The column names, in schema order. */
  function ColumnNames(columns: seq<Column>): (r: seq<string>)
    ensures |r| == |columns|
    ensures forall k :: 0 <= k < |r| ==> r[k] == columns[k].name
  {
    seq(|columns|, k requires 0 <= k < |columns| => columns[k].name)
  }

  /** The statement head the first row fragment starts with. */
  function InsertHeader(target: string, columns: seq<Column>): string
  {
    "INSERT INTO " + target + " (" + Join(", ", ColumnNames(columns)) + ") VALUES \n\n"
  }

  /** The parenthesised value tuple of one row. */
  function Tuple(values: seq<string>): string
  {
    "(" + Join(",", values) + ")"
  }

  /** The comma after a row: present while the global index is below `rowcount - 1`. */
  function RowSeparator(rowIndex: nat, rowCount: int): string
  {
    if rowIndex < rowCount - 1 then "," else ""
  }

  /** The fragment yielded for the row at `rowIndex`, or the error it raises. */
  function RowFragment<V>(fmt: Formatter<V>, target: string, columns: seq<Column>,
                          rowIndex: nat, row: seq<Option<V>>, rowCount: int): Result<string, Error>
  {
    match SerializeRow(fmt, columns, row)
    case Failure(e) => Failure(e)
    case Success(values) =>
      Success((if rowIndex == 0 then InsertHeader(target, columns) else "")
              + Tuple(values) + RowSeparator(rowIndex, rowCount))
  }

  /** The fragments a consumer receives, and the error raised after them, if any. */
  datatype Dump = Dump(fragments: seq<string>, error: Option<Error>)

  /** The outcome of every row, in row order: its fragment or its error. */
  function RowResults<V>(fmt: Formatter<V>, target: string, columns: seq<Column>,
                         rows: seq<(seq<Option<V>>, int)>): (r: seq<Result<string, Error>>)
    ensures |r| == |rows|
  {
    seq(|rows|, k requires 0 <= k < |rows| => RowFragment(fmt, target, columns, k, rows[k].0, rows[k].1))
  }

  /**
   * The stream made of the row outcomes from index `i` on: each fragment
   * in turn, the first error ending the stream, and the terminator `\n;`
   * once every row has been yielded.
   */
  function StreamFrom(results: seq<Result<string, Error>>, i: nat): Dump
    requires i <= |results|
    decreases |results| - i
  {
    if i == |results| then Dump(["\n;"], None)
    else
      match results[i]
      case Failure(e) => Dump([], Some(e))
      case Success(f) =>
        var rest := StreamFrom(results, i + 1);
        Dump([f] + rest.fragments, rest.error)
  }

  /** Everything the generator yields for a table, and what it raises. */
  function SqlDumpData<V>(fmt: Formatter<V>, schema: string, table: string, pgSchema: Option<string>,
                          columns: seq<Column>, rows: seq<(seq<Option<V>>, int)>): Dump
  {
    StreamFrom(RowResults(fmt, QualifiedName(schema, table, pgSchema), columns, rows), 0)
  }

  /**
   * Produces the fragments as the source's generator yields them: a
   * `first` flag guards the statement head, and a row with a value that
   * cannot be serialised ends the stream with its error.
   */
  method GetTableSqlDumpData<V>(fmt: Formatter<V>, schema: string, table: string, pgSchema: Option<string>,
                                columnsSchema: seq<Column>, rows: seq<(seq<Option<V>>, int)>)
    returns (fragments: seq<string>, error: Option<Error>)
    ensures Dump(fragments, error) == SqlDumpData(fmt, schema, table, pgSchema, columnsSchema, rows)
  {
    var target := TargetSchema(schema, pgSchema);
    ghost var results := RowResults(fmt, QualifiedName(schema, table, pgSchema), columnsSchema, rows);
    var first := true;
    fragments := [];
    var rowIndex := 0;
    while rowIndex < |rows|
      invariant rowIndex <= |rows|
      invariant first <==> rowIndex == 0
      invariant SqlDumpData(fmt, schema, table, pgSchema, columnsSchema, rows) ==
        Dump(fragments + StreamFrom(results, rowIndex).fragments, StreamFrom(results, rowIndex).error)
    {
      var columnsData := rows[rowIndex].0;
      var rowCount := rows[rowIndex].1;
      var sql, failure := RowText(fmt, first, target, table, columnsSchema, rowIndex, columnsData, rowCount);
      first := false;
      ghost var rest := StreamFrom(results, rowIndex + 1);
      assert results[rowIndex] == RowFragment(fmt, target + "." + table, columnsSchema, rowIndex, columnsData, rowCount);
      if failure.Some? {
        error := failure;
        assert StreamFrom(results, rowIndex) == Dump([], error);
        assert fragments + [] == fragments;
        return;
      }
      assert StreamFrom(results, rowIndex) == Dump([sql] + rest.fragments, rest.error);
      assert fragments + ([sql] + rest.fragments) == fragments + [sql] + rest.fragments;
      fragments := fragments + [sql];
      rowIndex := rowIndex + 1;
    }
    fragments := fragments + ["\n;"];
    error := None;
  }

  /**
   * The body of the generator's row loop: the statement head when `first`
   * is set, then the value tuple and the comma the row count calls for.
   */
  method RowText<V>(fmt: Formatter<V>, first: bool, target: string, table: string, columnsSchema: seq<Column>,
                    rowIndex: nat, columnsData: seq<Option<V>>, rowCount: int)
    returns (sql: string, error: Option<Error>)
    requires first <==> rowIndex == 0
    ensures error.None? ==>
      RowFragment(fmt, target + "." + table, columnsSchema, rowIndex, columnsData, rowCount) == Success(sql)
    ensures error.Some? ==>
      RowFragment(fmt, target + "." + table, columnsSchema, rowIndex, columnsData, rowCount) == Failure(error.value)
  {
    sql := "";
    if first {
      sql := InsertHead(target, table, columnsSchema);
    }
    ghost var head := sql;
    assert head == (if rowIndex == 0 then InsertHeader(target + "." + table, columnsSchema) else "");
    var values, failure := SerializeValues(fmt, columnsSchema, columnsData);
    if failure.Some? {
      return sql, failure;
    }
    sql := sql + "(" + Join(",", values) + ")";
    if rowIndex < rowCount - 1 {
      sql := sql + ",";
    }
    assert sql == head + "(" + Join(",", values) + ")" + RowSeparator(rowIndex, rowCount);
    TupleText(head, values, RowSeparator(rowIndex, rowCount));
    error := None;
  }

  /**
   * The statement head written on the first row: the target, then the
   * column names one by one, each but the last followed by `, `.
   */
  method InsertHead(target: string, table: string, columnsSchema: seq<Column>) returns (sql: string)
    ensures sql == InsertHeader(target + "." + table, columnsSchema)
  {
    sql := "INSERT INTO " + (target + "." + table) + " (";
    ghost var opening := sql;
    ghost var names := ColumnNames(columnsSchema);
    var count := 0;
    while count < |columnsSchema|
      invariant count <= |columnsSchema|
      invariant sql == opening + HeaderSoFar(names, count)
    {
      HeaderStep(opening, names, count);
      sql := sql + columnsSchema[count].name;
      if count < |columnsSchema| - 1 {
        sql := sql + ", ";
      }
      count := count + 1;
    }
    HeaderDone(names);
    sql := sql + ") VALUES \n\n";
  }

  /**
   * The inner loop over `zip(columns_schema, columns_data)`: the row's
   * values serialised in order, or the error of the first that cannot be.
   */
  method SerializeValues<V>(fmt: Formatter<V>, columnsSchema: seq<Column>, columnsData: seq<Option<V>>)
    returns (values: seq<string>, error: Option<Error>)
    ensures error.None? ==> SerializeRow(fmt, columnsSchema, columnsData) == Success(values)
    ensures error.Some? ==> SerializeRow(fmt, columnsSchema, columnsData) == Failure(error.value)
  {
    values := [];
    var count := 0;
    var n := Min(|columnsSchema|, |columnsData|);
    while count < n
      invariant count <= n
      invariant |values| == count
      invariant forall k :: 0 <= k < count ==>
        SerializeValue(fmt, columnsSchema[k], columnsData[k]) == Success(values[k])
    {
      var value := SerializeValue(fmt, columnsSchema[count], columnsData[count]);
      if value.Failure? {
        SerializeValueFailsIff(fmt, columnsSchema[count], columnsData[count]);
        SerializeRowFails(fmt, columnsSchema, columnsData);
        SerializeRowError(fmt, columnsSchema, columnsData);
        assert SerializeRow(fmt, columnsSchema, columnsData).Failure?;
        return values, Some(value.error);
      }
      values := values + [value.value];
      count := count + 1;
    }
    SerializeRowOf(fmt, columnsSchema, columnsData, values);
    error := None;
  }

  /** The column list after `count` names: a separator follows each name but the last. */
  function HeaderSoFar(names: seq<string>, count: nat): string
    requires count <= |names|
  {
    Join(", ", names[..count]) + (if 0 < count < |names| then ", " else "")
  }

  /** Writing the next name, and its separator, extends the column list. */
  lemma HeaderStep(opening: string, names: seq<string>, count: nat)
    requires count < |names|
    ensures opening + HeaderSoFar(names, count) + names[count] + (if count < |names| - 1 then ", " else "")
      == opening + HeaderSoFar(names, count + 1)
  {
    var sep := if 0 < count < |names| then ", " else "";
    var sep' := if count < |names| - 1 then ", " else "";
    assert names[..count + 1] == names[..count] + [names[count]];
    if count > 0 {
      JoinSnoc(", ", names[..count], names[count]);
    } else {
      assert names[..1] == [names[0]];
    }
    assert HeaderSoFar(names, count) + names[count] == Join(", ", names[..count + 1]);
  }

  /** The finished column list is the names joined by `, `. */
  lemma HeaderDone(names: seq<string>)
    ensures HeaderSoFar(names, |names|) == Join(", ", names)
  {
    assert names[..|names|] == names;
  }

  /** The value tuple and the separator, as the source appends them. */
  lemma TupleText(head: string, values: seq<string>, sep: string)
    ensures head + "(" + Join(",", values) + ")" + sep == head + Tuple(values) + sep
  {
  }

  /**
   * A row fragment: the statement head, with the column names joined by
   * `, `, only on the row at index 0, every other fragment starting with
   * its tuple; one value per column `zip` pairs; a trailing comma exactly
   * when the row index is below `rowcount - 1`.
   */
  lemma RowFragmentShape<V>(fmt: Formatter<V>, target: string, columns: seq<Column>,
                            rowIndex: nat, row: seq<Option<V>>, rowCount: int)
    requires SerializeRow(fmt, columns, row).Success?
    ensures var f := RowFragment(fmt, target, columns, rowIndex, row, rowCount);
      var values := SerializeRow(fmt, columns, row).value;
      && f.Success?
      && |values| == Min(|columns|, |row|)
      && (rowIndex == 0 ==> InsertHeader(target, columns) + Tuple(values) <= f.value)
      && (rowIndex > 0 ==> Tuple(values) <= f.value && f.value[0] == '(')
      && |f.value| > 0
      && (f.value[|f.value| - 1] == ',' <==> rowIndex < rowCount - 1)
      && (rowIndex >= rowCount - 1 ==> f.value[|f.value| - 1] == ')')
  {
    SerializeRowValues(fmt, columns, row);
    var values := SerializeRow(fmt, columns, row).value;
    var t := Tuple(values);
    var sep := RowSeparator(rowIndex, rowCount);
    var head := if rowIndex == 0 then InsertHeader(target, columns) else "";
    var f := head + t + sep;
    assert RowFragment(fmt, target, columns, rowIndex, row, rowCount) == Success(f);
    assert t[|t| - 1] == ')';
    assert (head + t) + sep == head + (t + sep);
    assert head + t <= f;
    if rowIndex > 0 {
      assert head + t == t;
    }
  }

  /**
   * When every outcome from `i` on is a fragment, the stream holds those
   * fragments in order, then the terminator `\n;`.
   */
  lemma {:induction false} StreamComplete(results: seq<Result<string, Error>>, i: nat)
    requires i <= |results|
    requires forall k :: i <= k < |results| ==> results[k].Success?
    ensures var d := StreamFrom(results, i);
      && d.error.None?
      && |d.fragments| == |results| - i + 1
      && d.fragments[|results| - i] == "\n;"
      && forall k :: i <= k < |results| ==> d.fragments[k - i] == results[k].value
    decreases |results| - i
  {
    if i < |results| {
      StreamComplete(results, i + 1);
    }
  }

  /**
   * When the outcome at `bad` is the first error from `i` on, the stream
   * holds the fragments before it, then raises that error.
   */
  lemma {:induction false} StreamRaises(results: seq<Result<string, Error>>, i: nat, bad: nat)
    requires i <= bad < |results|
    requires results[bad].Failure?
    requires forall k :: i <= k < bad ==> results[k].Success?
    ensures var d := StreamFrom(results, i);
      && d.error == Some(results[bad].error)
      && |d.fragments| == bad - i
      && forall k :: i <= k < bad ==> d.fragments[k - i] == results[k].value
    decreases |results| - i
  {
    if i < bad {
      StreamRaises(results, i + 1, bad);
    }
  }

  /** `StreamRaises` for the whole stream, indexed from its start. */
  lemma StreamRaisesFromStart(results: seq<Result<string, Error>>, bad: nat)
    requires bad < |results|
    requires results[bad].Failure?
    requires forall k :: 0 <= k < bad ==> results[k].Success?
    ensures var d := StreamFrom(results, 0);
      && d.error == Some(results[bad].error)
      && |d.fragments| == bad
      && forall k :: 0 <= k < bad ==> d.fragments[k] == results[k].value
  {
    StreamRaises(results, 0, bad);
    var d := StreamFrom(results, 0);
    forall k | 0 <= k < bad ensures d.fragments[k] == results[k].value {
      assert d.fragments[k - 0] == results[k].value;
    }
  }

  /** Of a finite sequence of outcomes with an error, some error comes first. */
  lemma {:induction false} FirstFailure(results: seq<Result<string, Error>>, j: nat) returns (bad: nat)
    requires j < |results| && results[j].Failure?
    ensures bad <= j && results[bad].Failure?
    ensures forall k :: 0 <= k < bad ==> results[k].Success?
    decreases j
  {
    if exists k :: 0 <= k < j && results[k].Failure? {
      var k :| 0 <= k < j && results[k].Failure?;
      bad := FirstFailure(results, k);
    } else {
      bad := j;
    }
  }

  /** A row's outcome is a fragment exactly when its values serialise; its error is the conversion error. */
  lemma RowResultAt<V>(fmt: Formatter<V>, target: string, columns: seq<Column>,
                       rows: seq<(seq<Option<V>>, int)>, k: nat)
    requires k < |rows|
    ensures var r := RowResults(fmt, target, columns, rows)[k];
      && r == RowFragment(fmt, target, columns, k, rows[k].0, rows[k].1)
      && (r.Success? <==> SerializeRow(fmt, columns, rows[k].0).Success?)
      && (r.Failure? ==> r.error == ConversionError)
  {
    SerializeRowError(fmt, columns, rows[k].0);
  }

  /** A row whose outcome is the fragment `f` serialises, and `f` is its fragment. */
  lemma FragmentAt<V>(fmt: Formatter<V>, target: string, columns: seq<Column>,
                      rows: seq<(seq<Option<V>>, int)>, k: nat, f: string)
    requires k < |rows| && RowResults(fmt, target, columns, rows)[k] == Success(f)
    ensures SerializeRow(fmt, columns, rows[k].0).Success?
    ensures RowFragment(fmt, target, columns, k, rows[k].0, rows[k].1) == Success(f)
  {
  }

  /** The generator completes, raising nothing, exactly when every row serialises. */
  lemma SqlDumpDataCompletes<V>(fmt: Formatter<V>, schema: string, table: string, pgSchema: Option<string>,
                                columns: seq<Column>, rows: seq<(seq<Option<V>>, int)>)
    ensures SqlDumpData(fmt, schema, table, pgSchema, columns, rows).error.None? <==>
      forall k :: 0 <= k < |rows| ==> SerializeRow(fmt, columns, rows[k].0).Success?
  {
    var target := QualifiedName(schema, table, pgSchema);
    var results := RowResults(fmt, target, columns, rows);
    forall k | 0 <= k < |rows|
      ensures results[k].Success? <==> SerializeRow(fmt, columns, rows[k].0).Success?
    {
      RowResultAt(fmt, target, columns, rows, k);
    }
    if forall k :: 0 <= k < |rows| ==> results[k].Success? {
      StreamComplete(results, 0);
    } else {
      var j :| 0 <= j < |rows| && results[j].Failure?;
      var bad := FirstFailure(results, j);
      StreamRaises(results, 0, bad);
    }
  }

  /**
   * When every row serialises, the generator yields one fragment per row,
   * in row order, then the terminator `\n;`.
   */
  lemma SqlDumpDataFragments<V>(fmt: Formatter<V>, schema: string, table: string, pgSchema: Option<string>,
                                columns: seq<Column>, rows: seq<(seq<Option<V>>, int)>)
    requires forall k :: 0 <= k < |rows| ==> SerializeRow(fmt, columns, rows[k].0).Success?
    ensures var d := SqlDumpData(fmt, schema, table, pgSchema, columns, rows);
      var target := QualifiedName(schema, table, pgSchema);
      && |d.fragments| == |rows| + 1
      && d.fragments[|rows|] == "\n;"
      && forall k :: 0 <= k < |rows| ==>
           RowFragment(fmt, target, columns, k, rows[k].0, rows[k].1) == Success(d.fragments[k])
  {
    var target := QualifiedName(schema, table, pgSchema);
    var results := RowResults(fmt, target, columns, rows);
    forall k | 0 <= k < |rows|
      ensures results[k].Success?
    {
      RowResultAt(fmt, target, columns, rows, k);
    }
    StreamComplete(results, 0);
    var d := StreamFrom(results, 0);
    forall k | 0 <= k < |rows|
      ensures RowFragment(fmt, target, columns, k, rows[k].0, rows[k].1) == Success(d.fragments[k])
    {
      assert d.fragments[k - 0] == results[k].value;
      FragmentAt(fmt, target, columns, rows, k, d.fragments[k]);
    }
  }

  /**
   * When the generator raises, it raises the conversion error, after the
   * fragments of the rows before the first row that does not serialise.
   */
  lemma SqlDumpDataRaises<V>(fmt: Formatter<V>, schema: string, table: string, pgSchema: Option<string>,
                             columns: seq<Column>, rows: seq<(seq<Option<V>>, int)>)
    ensures var d := SqlDumpData(fmt, schema, table, pgSchema, columns, rows);
      var target := QualifiedName(schema, table, pgSchema);
      d.error.Some? ==>
        && d.error == Some(ConversionError)
        && exists bad :: 0 <= bad < |rows|
             && SerializeRow(fmt, columns, rows[bad].0).Failure?
             && |d.fragments| == bad
             && forall k :: 0 <= k < bad ==>
                  SerializeRow(fmt, columns, rows[k].0).Success?
                  && RowFragment(fmt, target, columns, k, rows[k].0, rows[k].1) == Success(d.fragments[k])
  {
    var target := QualifiedName(schema, table, pgSchema);
    var results := RowResults(fmt, target, columns, rows);
    if exists j :: 0 <= j < |rows| && results[j].Failure? {
      var j :| 0 <= j < |rows| && results[j].Failure?;
      var bad := FirstFailure(results, j);
      assert SerializeRow(fmt, columns, rows[bad].0).Failure? && results[bad].error == ConversionError by {
        RowResultAt(fmt, target, columns, rows, bad);
      }
      StreamRaisesFromStart(results, bad);
      var d := StreamFrom(results, 0);
      forall k | 0 <= k < bad
        ensures SerializeRow(fmt, columns, rows[k].0).Success?
        ensures RowFragment(fmt, target, columns, k, rows[k].0, rows[k].1) == Success(d.fragments[k])
      {
        FragmentAt(fmt, target, columns, rows, k, d.fragments[k]);
      }
    } else {
      StreamComplete(results, 0);
    }
  }

  /** The value tuples of all rows. */
  function Tuples<V>(fmt: Formatter<V>, columns: seq<Column>, rows: seq<(seq<Option<V>>, int)>): (r: seq<string>)
    ensures |r| == |rows|
  {
    seq(|rows|, k requires 0 <= k < |rows| =>
      match SerializeRow(fmt, columns, rows[k].0)
      case Success(values) => Tuple(values)
      case Failure(_) => "")
  }

  /**
   * Row fragments put together: the head, the tuples separated by the
   * commas the fragments end with, then the terminator.
   */
  lemma {:induction false} ConcatRows(head: string, ts: seq<string>, fs: seq<string>, i: nat)
    requires i < |ts| && |fs| == |ts| + 1 && fs[|ts|] == "\n;"
    requires forall k :: 0 <= k < |ts| ==>
      fs[k] == (if k == 0 then head else "") + ts[k] + (if k < |ts| - 1 then "," else "")
    ensures Concat(fs[i..]) == (if i == 0 then head else "") + Join(",", ts[i..]) + "\n;"
    decreases |ts| - i
  {
    var h := if i == 0 then head else "";
    assert Concat(fs[i..]) == fs[i] + Concat(fs[i + 1..]) by {
      assert fs[i..][0] == fs[i] && fs[i..][1..] == fs[i + 1..];
    }
    if i == |ts| - 1 {
      assert fs[i + 1..] == ["\n;"];
      ConcatSingle("\n;");
      assert Join(",", ts[i..]) == ts[i] by {
        assert ts[i..] == [ts[i]];
      }
      assert fs[i] == h + ts[i];
    } else {
      ConcatRows(head, ts, fs, i + 1);
      var j := Join(",", ts[i + 1..]);
      assert Join(",", ts[i..]) == ts[i] + "," + j by {
        assert ts[i..][1..] == ts[i + 1..];
      }
      assert fs[i] == h + ts[i] + ",";
      CommaRegroup(h, ts[i], j, "\n;");
    }
  }

  /** Moving a comma-joined tail inside the join. */
  lemma CommaRegroup(h: string, t: string, j: string, end: string)
    ensures h + t + "," + (j + end) == h + (t + "," + j) + end
  {
    Regroup(h + t + ",", j, end);
    Regroup(h, t + ",", j);
    Regroup(h, t, ",");
  }

  /** A serialising row carrying the true row count yields its tuple, after the head on the first row, before a comma on all but the last. */
  lemma RowTupleAt<V>(fmt: Formatter<V>, target: string, columns: seq<Column>,
                      rows: seq<(seq<Option<V>>, int)>, k: nat)
    requires k < |rows| && rows[k].1 == |rows|
    requires SerializeRow(fmt, columns, rows[k].0).Success?
    ensures var r := RowResults(fmt, target, columns, rows)[k];
      && r.Success?
      && r.value == (if k == 0 then InsertHeader(target, columns) else "")
                    + Tuples(fmt, columns, rows)[k] + (if k < |rows| - 1 then "," else "")
  {
    RowResultAt(fmt, target, columns, rows, k);
  }

  /**
   * When every row serialises and each carries the true number of rows as
   * its `rowcount`, the fragments put together are one INSERT statement:
   * the head, the tuples separated by commas, and the terminator.
   */
  lemma DumpStatement<V>(fmt: Formatter<V>, schema: string, table: string, pgSchema: Option<string>,
                         columns: seq<Column>, rows: seq<(seq<Option<V>>, int)>)
    requires |rows| > 0
    requires forall k :: 0 <= k < |rows| ==> rows[k].1 == |rows|
    requires forall k :: 0 <= k < |rows| ==> SerializeRow(fmt, columns, rows[k].0).Success?
    ensures SqlDumpData(fmt, schema, table, pgSchema, columns, rows).error.None?
    ensures Concat(SqlDumpData(fmt, schema, table, pgSchema, columns, rows).fragments) ==
      InsertHeader(QualifiedName(schema, table, pgSchema), columns) + Join(",", Tuples(fmt, columns, rows)) + "\n;"
  {
    var target := QualifiedName(schema, table, pgSchema);
    var head := InsertHeader(target, columns);
    var results := RowResults(fmt, target, columns, rows);
    var ts := Tuples(fmt, columns, rows);
    forall k | 0 <= k < |rows|
      ensures results[k].Success?
      ensures results[k].value == (if k == 0 then head else "") + ts[k] + (if k < |ts| - 1 then "," else "")
    {
      RowTupleAt(fmt, target, columns, rows, k);
    }
    StreamConcat(results, head, ts);
  }

  /**
   * A stream of row fragments, each the tuple preceded by the head on the
   * first row and followed by a comma on all but the last, is put together
   * as the head, the tuples joined by commas, and the terminator.
   */
  lemma StreamConcat(results: seq<Result<string, Error>>, head: string, ts: seq<string>)
    requires |results| == |ts| > 0
    requires forall k :: 0 <= k < |ts| ==>
      && results[k].Success?
      && results[k].value == (if k == 0 then head else "") + ts[k] + (if k < |ts| - 1 then "," else "")
    ensures StreamFrom(results, 0).error.None?
    ensures Concat(StreamFrom(results, 0).fragments) == head + Join(",", ts) + "\n;"
  {
    StreamComplete(results, 0);
    var fs := StreamFrom(results, 0).fragments;
    forall k | 0 <= k < |ts|
      ensures fs[k] == (if k == 0 then head else "") + ts[k] + (if k < |ts| - 1 then "," else "")
    {
      assert fs[k - 0] == results[k].value;
    }
    ConcatRows(head, ts, fs, 0);
    assert fs[0..] == fs;
    assert ts[0..] == ts;
  }
}
