/**
 * The per-value branch of `get_table__sql_dump_data__generator`: one raw
 * row value, dispatched on its column's mapped type, becomes one SQL
 * literal or raises.
 */
module ValueSerialisation {
  import opened Wrappers
  import opened SqlText
  import opened TypeMapping

  /**
   * The library behaviour the serialiser relies on, for raw values of type
   * `V`: Python's truth value of a value (a string is true when it is not
   * empty), `str(psycopg2.extensions.QuotedString(value))`,
   * `value.isoformat()` and `str(value)`.
   */
  datatype Formatter<-V> = Formatter(
    truthy: V -> bool,
    quoted: V -> string,
    isoformat: V -> string,
    str: V -> string)

  /** The mapped types serialised as a quoted ISO date-time. */
  const TimestampTypes: seq<string> := ["timestamp without time zone", "timestamp with time zone"]

  /** The mapped types serialised as `str(value)`; `bigint` is not one of them. */
  const NumberTypes: seq<string> := ["integer", "real", "numeric", "double precision", "smallint"]

  /** The error raised for a value whose type has no conversion. */
  const ConversionError: Error := ValueError("ERROR: CHECK VALUE CONVERSION")

  /** One row value as an SQL literal, or the conversion error. */
  function SerializeValue<V>(fmt: Formatter<V>, column: Column, value: Option<V>): Result<string, Error>
  {
    var pgDataType := PgType(column.dataType);
    match value
    case None => Success("NULL")
    case Some(v) =>
      if pgDataType == "text" then
        Success(if fmt.truthy(v) then fmt.quoted(v) else "NULL")
      else if IsSubstring(pgDataType, "date") then
        Success("'" + fmt.isoformat(v) + "'")
      else if pgDataType in TimestampTypes then
        Success("'" + fmt.isoformat(v) + "'")
      else if pgDataType in NumberTypes then
        Success(fmt.str(v))
      else
        Failure(ConversionError)
  }

  /** The strings `t` for which Python's `t in 'date'` holds. */
  const DateSubstrings: set<string> :=
    {"", "d", "a", "t", "e", "da", "at", "te", "dat", "ate", "date"}

  /** The substring test against `'date'` accepts exactly the slices of `date`. */
  lemma DateSubstringsExact(t: string)
    ensures IsSubstring(t, "date") <==> t in DateSubstrings
  {
    var h := "date";
    assert h[1..] == "ate" && h[1..][1..] == "te" && h[1..][1..][1..] == "e";
    assert h[1..][1..][1..][1..] == "";
    assert IsSubstring(t, "date") <==> t <= "date" || t <= "ate" || t <= "te" || t <= "e" || t <= "";
    if |t| == 0 {
    } else if |t| == 1 {
      assert t <= "date" <==> t == "d";
      assert t <= "ate" <==> t == "a";
      assert t <= "te" <==> t == "t";
      assert t <= "e" <==> t == "e";
    } else if |t| == 2 {
      assert t <= "date" <==> t == "da";
      assert t <= "ate" <==> t == "at";
      assert t <= "te" <==> t == "te";
    } else if |t| == 3 {
      assert t <= "date" <==> t == "dat";
      assert t <= "ate" <==> t == "ate";
    } else if |t| == 4 {
      assert t <= "date" <==> t == "date";
    } else {
      assert !(t <= "date");
    }
  }

  /** Every column `data_type` whose non-null values can be serialised. */
  const ConvertibleDataTypes: set<string> :=
    {"character varying", "character", "text"}
    + DateSubstrings
    + (set t | t in TimestampTypes)
    + (set t | t in NumberTypes)

  /**
   * A value is serialised unless it is not `None` and its column's
   * `data_type` is none of the convertible ones; every failure is the one
   * conversion error.
   */
  lemma SerializeValueFailsIff<V>(fmt: Formatter<V>, column: Column, value: Option<V>)
    ensures SerializeValue(fmt, column, value).Failure? <==>
      value.Some? && column.dataType !in ConvertibleDataTypes
    ensures SerializeValue(fmt, column, value).Failure? ==>
      SerializeValue(fmt, column, value).error == ConversionError
  {
    var t := column.dataType;
    PgTypeText(t);
    DateSubstringsExact(PgType(t));
    if t == "character varying" || t == "character" {
      assert PgType(t) == "text";
    } else {
      assert PgType(t) == t;
    }
  }

  /** `bigint` has no conversion: any non-null `bigint` value raises. */
  lemma BigintRaises<V>(fmt: Formatter<V>, column: Column, v: V)
    requires column.dataType == "bigint"
    ensures SerializeValue(fmt, column, Some(v)) == Failure(ConversionError)
  {
    SerializeValueFailsIff(fmt, column, Some(v));
  }

  /**
   * `None` is `NULL` in every column, even one of an unconvertible type; an
   * empty (false) value in a text column is `NULL` too; a non-empty one is
   * its quoted form.
   */
  lemma SerializeNullAndText<V>(fmt: Formatter<V>, column: Column, value: Option<V>)
    ensures value.None? ==> SerializeValue(fmt, column, value) == Success("NULL")
    ensures value.Some? && column.dataType in {"character varying", "character", "text"} ==>
      SerializeValue(fmt, column, value) ==
        Success(if fmt.truthy(value.value) then fmt.quoted(value.value) else "NULL")
  {
    PgTypeText(column.dataType);
  }

  /**
   * With string values, whose truth value is being non-empty, an empty
   * string in a text column is `NULL` and any other string is its quoted
   * form.
   */
  lemma SerializeStringText(fmt: Formatter<string>, column: Column, s: string)
    requires forall x: string :: fmt.truthy(x) == (x != "")
    requires column.dataType in {"character varying", "character", "text"}
    ensures s == "" ==> SerializeValue(fmt, column, Some(s)) == Success("NULL")
    ensures s != "" ==> SerializeValue(fmt, column, Some(s)) == Success(fmt.quoted(s))
  {
    SerializeNullAndText(fmt, column, Some(s));
  }

  /**
   * Date and timestamp values, and values of any type that is a substring
   * of `date`, are their ISO form between single quotes; the number types
   * are `str(value)`, unquoted.
   */
  lemma SerializeTemporalAndNumber<V>(fmt: Formatter<V>, column: Column, v: V)
    ensures column.dataType in DateSubstrings || column.dataType in TimestampTypes ==>
      SerializeValue(fmt, column, Some(v)) == Success("'" + fmt.isoformat(v) + "'")
    ensures column.dataType in NumberTypes ==>
      SerializeValue(fmt, column, Some(v)) == Success(fmt.str(v))
  {
    var t := column.dataType;
    DateSubstringsExact(t);
    if t in DateSubstrings || t in TimestampTypes || t in NumberTypes {
      assert PgType(t) == t;
      assert PgType(t) != "text";
      if t in NumberTypes {
        assert !IsSubstring(t, "date");
        assert t !in TimestampTypes;
      }
    }
  }

  /**
   * The values of one row, as `zip(columns_schema, columns_data)` pairs
   * them with their columns, or the error of the first that cannot be
   * serialised.
   */
  function SerializeRow<V>(fmt: Formatter<V>, columns: seq<Column>, row: seq<Option<V>>): Result<seq<string>, Error>
  {
    if columns == [] || row == [] then Success([])
    else
      match SerializeValue(fmt, columns[0], row[0])
      case Failure(e) => Failure(e)
      case Success(v) =>
        match SerializeRow(fmt, columns[1..], row[1..])
        case Failure(e) => Failure(e)
        case Success(vs) => Success([v] + vs)
  }

  /**
   * A serialised row has one value per pair `zip` forms, the shorter of
   * schema and row deciding, and each is its value serialised.
   */
  lemma {:induction false} SerializeRowValues<V>(fmt: Formatter<V>, columns: seq<Column>, row: seq<Option<V>>)
    requires SerializeRow(fmt, columns, row).Success?
    ensures var values := SerializeRow(fmt, columns, row).value;
      && |values| == Min(|columns|, |row|)
      && forall k :: 0 <= k < |values| ==> SerializeValue(fmt, columns[k], row[k]) == Success(values[k])
  {
    if columns != [] && row != [] {
      SerializeRowValues(fmt, columns[1..], row[1..]);
      var values := SerializeRow(fmt, columns, row).value;
      var rest := SerializeRow(fmt, columns[1..], row[1..]).value;
      assert values == [values[0]] + rest;
      forall k | 0 <= k < |values|
        ensures SerializeValue(fmt, columns[k], row[k]) == Success(values[k])
      {
        if k > 0 {
          assert columns[k] == columns[1..][k - 1] && row[k] == row[1..][k - 1];
          assert values[k] == rest[k - 1];
        }
      }
    }
  }

  /** A row serialises exactly when every value `zip` pairs with a column does. */
  lemma {:induction false} SerializeRowSucceeds<V>(fmt: Formatter<V>, columns: seq<Column>, row: seq<Option<V>>)
    ensures SerializeRow(fmt, columns, row).Success? <==>
      forall k :: 0 <= k < Min(|columns|, |row|) ==> SerializeValue(fmt, columns[k], row[k]).Success?
  {
    if columns != [] && row != [] {
      var cs, rs := columns[1..], row[1..];
      SerializeRowSucceeds(fmt, cs, rs);
      forall k | 1 <= k < Min(|columns|, |row|)
        ensures columns[k] == cs[k - 1] && row[k] == rs[k - 1]
      {
      }
    }
  }

  /** A row fails exactly when one of the values `zip` pairs with a column fails. */
  lemma SerializeRowFails<V>(fmt: Formatter<V>, columns: seq<Column>, row: seq<Option<V>>)
    ensures SerializeRow(fmt, columns, row).Failure? <==>
      exists k :: 0 <= k < Min(|columns|, |row|) && SerializeValue(fmt, columns[k], row[k]).Failure?
  {
    SerializeRowSucceeds(fmt, columns, row);
  }

  /** A row that fails raises the conversion error. */
  lemma {:induction false} SerializeRowError<V>(fmt: Formatter<V>, columns: seq<Column>, row: seq<Option<V>>)
    ensures SerializeRow(fmt, columns, row).Failure? ==> SerializeRow(fmt, columns, row).error == ConversionError
  {
    if columns != [] && row != [] {
      SerializeRowError(fmt, columns[1..], row[1..]);
    }
  }

  /** The smaller of two lengths. */
  function Min(a: nat, b: nat): nat
  {
    if a <= b then a else b
  }

  /** A row whose values all serialise gives exactly those values, in order. */
  lemma SerializeRowOf<V>(fmt: Formatter<V>, columns: seq<Column>, row: seq<Option<V>>, values: seq<string>)
    requires |values| == Min(|columns|, |row|)
    requires forall k :: 0 <= k < |values| ==> SerializeValue(fmt, columns[k], row[k]) == Success(values[k])
    ensures SerializeRow(fmt, columns, row) == Success(values)
  {
    SerializeRowFails(fmt, columns, row);
    var r := SerializeRow(fmt, columns, row);
    assert r.Success?;
    SerializeRowValues(fmt, columns, row);
    assert |r.value| == |values|;
    forall k | 0 <= k < |values| ensures r.value[k] == values[k] {
    }
    assert r.value == values;
  }
}
