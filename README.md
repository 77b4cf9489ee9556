# Redshift-to-PostgreSQL SQL generation, modelled in Dafny

This project models the text-generating core of `db_tools/redshift.py`. The
`Cluster` class there reads a table's column schema and rows from an Amazon
Redshift cluster. From them it writes:

- a PostgreSQL `CREATE TABLE` script (`get_table__sql_create`);
- a stream of `INSERT` fragments (`get_table__sql_dump_data__generator`).

The database queries are replaced by inputs:

- the column schema is a `seq<Column>`, one record per column in catalog order;
- the rows are a `seq<(seq<Option<V>>, int)>`, each row paired with the cursor's `rowcount`;
- a Python `None` is `Option.None`.

Four library behaviours are parameters, the fields of a `Formatter<V>` value:

- `psycopg2.extensions.QuotedString`;
- `value.isoformat()`;
- `str(value)`;
- Python's truth test on a raw value.

Modules:

- `Wrappers`: `Option` and `Result`.
- `SqlText`: the string operations the generator uses.
  - `sep.join`;
  - `str.replace('-', '_')`;
  - Python's substring test `a in b`;
  - decimal rendering of integers;
  - newline-terminated lines.
- `TypeMapping`: the `REDSHIFT_TO_POSTGRE` lookup, the `numeric(p,s)` declaration and the `pg_schema` default.
- `CreateTable`: the DDL, with
  - a function `SqlCreate` stating the result;
  - a method `GetTableSqlCreate` that builds it with `+=` in a loop, as the source does;
  - lemmas on the line layout.
- `ValueSerialisation`: the per-value conversion and the per-row `zip` loop.
- `DumpData`: the DML generator.
  - The outcome is a `Dump`: the fragments yielded, and the error raised after them if any.
  - A function `SqlDumpData` states it.
  - A method `GetTableSqlDumpData` runs the loops of the source: the `first` flag, the header loop, the inner `values` loop and the comma rule.

Two behaviours of the code are easy to expect otherwise; the model keeps them as written:

- `DROP TABLE` is written without `IF EXISTS`.
- `bigint` is not among the number types, so a non-null `bigint` value raises.

## Model

| member | source | states |
|---|---|---|
| TypeMapping.PgType | db_tools/redshift.py:5-8 | `character varying` and `character` map to `text`; every other type name is returned unchanged |
| TypeMapping.PgTypeText | db_tools/redshift.py:106-110 | the mapped type is `text` exactly for `character varying`, `character` and `text` |
| TypeMapping.PgTypeNumeric | db_tools/redshift.py:106-112 | the mapped type is `numeric` exactly when the data type is `numeric`; the mapping adds no newline |
| TypeMapping.FormatField | db_tools/redshift.py:113 | precision or scale is rendered as its decimal integer, or as `None` when absent; it never holds a newline, comma or parenthesis |
| TypeMapping.DeclaredTypeCases | db_tools/redshift.py:112-114 | a `numeric` column is declared `numeric(precision,scale)`; every other column is declared with its mapped type, bare; the two character types are declared `text` |
| TypeMapping.TargetSchema | db_tools/redshift.py:86-87 | the target schema is `pg_schema`, or the source schema when `pg_schema` is `None` |
| SqlText.ReplaceHyphens | db_tools/redshift.py:96 | the result has the input's length; each hyphen becomes `_`; every other character is kept in place |
| SqlText.ReplaceHyphensClean | db_tools/redshift.py:96 | the result holds no hyphen; it contains a newline iff the input does; replacing again changes nothing |
| SqlText.IsSubstringIff | db_tools/redshift.py:174 | Python's `a in b` on strings holds exactly when some slice of `b` equals `a` |
| SqlText.JoinSnoc | db_tools/redshift.py:145-148 | joining one more item to a non-empty list appends the separator and the item |
| SqlText.NatToDecimalRoundTrip | db_tools/redshift.py:113 | the decimal rendering of a natural number reads back as that number |
| SqlText.IntToDecimalRoundTrip | db_tools/redshift.py:113 | the rendering of an integer, minus sign included, reads back as that integer |
| SqlText.LinesUnlines | db_tools/redshift.py:94-124 | splitting newline-terminated text at its newlines recovers the lines, when no line holds a newline |
| CreateTable.SqlCreate | db_tools/redshift.py:89-91 | the result is an error exactly when the column schema is empty; the error is `ValueError('database "schema.table" not found')`, named with the source schema |
| CreateTable.GetTableSqlCreate | db_tools/redshift.py:84-125 | the text built by appending, line after line, equals `SqlCreate`: the error for an empty schema, else the DDL lines each followed by a newline |
| CreateTable.DdlLinesAt | db_tools/redshift.py:93-124 | the DDL has one line per column plus six: `-- TABLE pg_schema.table` with the name unsanitised; `DROP TABLE` (no `IF EXISTS`) and `CREATE TABLE ... (` naming the table with hyphens replaced by `_`; `    id bigserial PRIMARY KEY,`; one four-space-indented `name type` line per column, in schema order, with a comma after all but the last; `);`; an empty line |
| CreateTable.SqlCreateLines | db_tools/redshift.py:93-124 | for a non-empty schema with no newline in any name, reading the DDL text back line by line gives exactly those lines |
| CreateTable.SqlCreateFrame | db_tools/redshift.py:93-124 | the DDL text starts with the `-- TABLE` header line and ends with `);\n\n` |
| ValueSerialisation.DateSubstringsExact | db_tools/redshift.py:174 | the test `pg_data_type in 'date'` accepts exactly the eleven slices of `date`, the empty string included |
| ValueSerialisation.SerializeValueFailsIff | db_tools/redshift.py:164-192 | a value raises exactly when it is not `None` and its type is none of the convertible ones; the error is `ValueError('ERROR: CHECK VALUE CONVERSION')` |
| ValueSerialisation.BigintRaises | db_tools/redshift.py:180-187 | every non-null `bigint` value raises the conversion error |
| ValueSerialisation.SerializeNullAndText | db_tools/redshift.py:166-190 | `None` is `NULL` in every column; a text value is its quoted form when true, else `NULL` |
| ValueSerialisation.SerializeStringText | db_tools/redshift.py:166-172 | with string values, whose truth value is being non-empty, an empty string in a text column is `NULL` and any other string is its quoted form |
| ValueSerialisation.SerializeTemporalAndNumber | db_tools/redshift.py:174-181 | a `date` value and a timestamp with or without time zone become `'isoformat'`; integer, real, numeric, double precision and smallint values become `str(value)` |
| ValueSerialisation.SerializeRowValues | db_tools/redshift.py:155-192 | a serialised row has `min(len(schema), len(row))` values, as `zip` pairs them; each is its value serialised |
| ValueSerialisation.SerializeRowSucceeds | db_tools/redshift.py:156-192 | a row serialises exactly when every value `zip` pairs with a column does |
| ValueSerialisation.SerializeRowFails | db_tools/redshift.py:156-187 | a row fails exactly when some paired value fails |
| ValueSerialisation.SerializeRowError | db_tools/redshift.py:187 | a failing row raises the conversion error |
| DumpData.SerializeValues | db_tools/redshift.py:155-192 | the inner loop's `values` list, or the error raised in it, equals the row serialisation |
| DumpData.InsertHead | db_tools/redshift.py:143-150 | the first row's head is `INSERT INTO pg_schema.table (` with the column names joined by `, `, then `) VALUES \n\n` |
| DumpData.RowText | db_tools/redshift.py:138-198 | the loop body yields the row's fragment, with the head only when `first` is set, or raises that row's error |
| DumpData.GetTableSqlDumpData | db_tools/redshift.py:128-200 | the fragments yielded and the error raised equal `SqlDumpData` for the schema and rows |
| DumpData.RowFragmentShape | db_tools/redshift.py:140-196 | only the row at index 0 starts with the `INSERT` head; every other fragment starts with its `(` tuple; a fragment ends with `,` exactly when `row_index < row_count - 1`, and otherwise with `)`; a row has `min(len(schema), len(row))` values |
| DumpData.StreamComplete | db_tools/redshift.py:136-200 | when every row yields, the stream is those fragments in order, then `\n;`, with nothing raised |
| DumpData.StreamRaises | db_tools/redshift.py:136-198 | when a row raises, the stream is the fragments before the first such row, then that row's error |
| DumpData.SqlDumpDataCompletes | db_tools/redshift.py:135-200 | the generator runs to its end without raising exactly when every row serialises |
| DumpData.SqlDumpDataFragments | db_tools/redshift.py:135-200 | when every row serialises, there is one fragment per row, in row order, then `\n;`; an empty row stream yields only `\n;` |
| DumpData.SqlDumpDataRaises | db_tools/redshift.py:156-198 | when the generator raises, it raises the conversion error after the fragments of the rows before the first failing row |
| DumpData.DumpStatement | db_tools/redshift.py:138-200 | when every row serialises and carries the true row count, the concatenated fragments are one `INSERT ... VALUES` statement, with the tuples separated by commas and ended by `\n;` |

## Left out

- Connecting and disconnecting (`Cluster.__init__`, `disconnect`, redshift.py:13-23 and 203-207) are not modelled. They are connection I/O; `disconnect` swallows exceptions.
- `get_tables` and `get_table_row_count` are not modelled. Neither is the query execution in `get_table_data__generator` and `get_table_schema__dict` (redshift.py:25-81). They are live database queries. Their results are inputs: the column schema, and the rows paired with `rowcount`. `offset` and `limit` only select which rows the query returns, so they are absorbed into the row input.
- `psycopg2.extensions.QuotedString`, `isoformat()` and `str(value)` are uninterpreted functions. They are library code, including the float rendering of `real` and `double precision`.
- Python's truth test is a parameter because a raw value may be of any type. For string values it is "not empty", and `ValueSerialisation.SerializeStringText` states what a text column then yields.
- `ValueSerialisation.SerializeTemporalAndNumber`: when a date or timestamp column holds a value without `isoformat`, Python raises `AttributeError`. The model writes `'isoformat'` with whatever the parameter returns.
- The diagnostic `print` calls before the conversion error (redshift.py:184-186) are not modelled; they are console output only.
- Generator laziness is not modelled. The fragments are a finite sequence, together with the error raised after them, if any. A consumer that stops early is not modelled.
- `GetTableSqlDumpData` (128-200) is split into helper methods; `GetTableSqlCreate` (84-125) stays one method:
  - the header loop is `InsertHead`;
  - the loop body is `RowText`;
  - the `values` loop is `SerializeValues`.
  Each helper is stated against the same specification functions as the source's single method.
- `setup.py` is not modelled; it is packaging metadata.
