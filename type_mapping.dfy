/**
 * The column records of the catalog query and the translation of Redshift
 * type names to PostgreSQL ones (the `REDSHIFT_TO_POSTGRE` table).
 */
module TypeMapping {
  import opened Wrappers
  import opened SqlText

  /**
   * One row of the column-metadata query, in ordinal-position order: the
   * keys of the dictionaries `get_table_schema__dict` returns. The two
   * numeric attributes are SQL NULL (`None`) for non-numeric columns.
   */
  datatype Column = Column(
    name: string,
    udtName: string,
    dataType: string,
    isNullable: string,
    characterMaximumLength: Option<int>,
    numericPrecision: Option<int>,
    numericScale: Option<int>)

  /** A raised `ValueError` and its message. */
  datatype Error = ValueError(message: string)

  /** The Redshift-to-PostgreSQL type dictionary. */
  const RedshiftToPostgre: map<string, string> :=
    map["character varying" := "text", "character" := "text"]

  /** Looks a `data_type` up in the dictionary, keeping it when it is not a key. */
  function PgType(dataType: string): (r: string)
    ensures dataType == "character varying" || dataType == "character" ==> r == "text"
    ensures dataType != "character varying" && dataType != "character" ==> r == dataType
  {
    if dataType in RedshiftToPostgre then RedshiftToPostgre[dataType] else dataType
  }

  /** Exactly the two character types and `text` itself arrive at `text`. */
  lemma PgTypeText(dataType: string)
    ensures PgType(dataType) == "text" <==>
      dataType in {"character varying", "character", "text"}
  {
  }

  /** Only `numeric` itself arrives at `numeric`; the mapping adds no newline. */
  lemma PgTypeNumeric(dataType: string)
    ensures PgType(dataType) == "numeric" <==> dataType == "numeric"
    ensures '\n' in PgType(dataType) ==> '\n' in dataType
  {
    assert '\n' !in "text";
  }

  /** `'{}'.format(x)` of a precision or scale: the integer, or `None` when absent. */
  function FormatField(x: Option<int>): (r: string)
    ensures x.Some? ==> r == IntToDecimal(x.value)
    ensures x.None? ==> r == "None"
    ensures '\n' !in r && ',' !in r && '(' !in r && ')' !in r
  {
    match x
    case None => "None"
    case Some(i) => IntToDecimal(i)
  }

  /** The type a column is declared with in the generated `CREATE TABLE`. */
  function DeclaredType(column: Column): string
  {
    var pgDataType := PgType(column.dataType);
    if pgDataType == "numeric" then
      pgDataType + "(" + FormatField(column.numericPrecision) + "," + FormatField(column.numericScale) + ")"
    else pgDataType
  }

  /**
   * A `numeric` column is declared `numeric(precision,scale)`; every other
   * column is declared with its mapped type, bare.
   */
  lemma DeclaredTypeCases(column: Column)
    ensures column.dataType == "numeric" ==>
      DeclaredType(column) ==
        "numeric(" + FormatField(column.numericPrecision) + "," + FormatField(column.numericScale) + ")"
    ensures column.dataType != "numeric" ==> DeclaredType(column) == PgType(column.dataType)
    ensures column.dataType in {"character varying", "character"} ==> DeclaredType(column) == "text"
    ensures '\n' in DeclaredType(column) ==> '\n' in column.dataType
  {
    PgTypeNumeric(column.dataType);
    var p, s := FormatField(column.numericPrecision), FormatField(column.numericScale);
    assert '\n' !in "numeric(" + p + "," + s + ")";
  }

  /** The target schema: `pg_schema`, defaulting to the source schema. */
  function TargetSchema(schema: string, pgSchema: Option<string>): (r: string)
    ensures pgSchema.None? ==> r == schema
    ensures pgSchema.Some? ==> r == pgSchema.value
  {
    match pgSchema
    case None => schema
    case Some(s) => s
  }

  /**
   * `pg_schema + '.' + table`, hyphens kept: the name in the DDL comment
   * header and the `INSERT INTO` target.
   */
  function QualifiedName(schema: string, table: string, pgSchema: Option<string>): string
  {
    TargetSchema(schema, pgSchema) + "." + table
  }
}
