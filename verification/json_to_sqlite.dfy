/**
 * json_to_sqlite.py: loading a JSON document into one SQLite table with a TEXT column per
 * key of the first object. The document arrives already parsed; `json.dumps` is a parameter
 * (an opaque serialiser), and the model stops at the statements and the row tuples handed
 * to SQLite.
 */
module JsonToSqlite {
  import opened Wrappers
  import opened Strs
  import opened JsonValue

  /** A `sys.exit` with the line printed before it. */
  datatype Exit = Exit(code: int, message: string)

  const NotADictionary: string := "Error: Data for determining columns must be a dictionary (JSON object)."
  const EmptyArray: string := "JSON array is empty. No data to process."
  const FirstItemNotObject: string := "Error: First item in JSON array is not an object. Cannot determine columns."
  const BadRoot: string := "Error: JSON root must be an object or an array of objects."
  const NoColumns: string := "Error: Could not determine column names from JSON data."
  const NoValidRows: string := "No valid rows found in JSON to insert."

  // ---------------------------------------------------------------- columns

  /** get_column_names_from_dict: the keys of an object in insertion order; anything else exits 1. */
  function ColumnNames(data: Json): (r: Result<seq<string>, Exit>)
    ensures r.Ok? <==> data.JObj?
    ensures r.Ok? ==> |r.value| == |data.fields| && forall i :: 0 <= i < |data.fields| ==> r.value[i] == data.fields[i].0
    ensures r.Err? ==> r.error == Exit(1, NotADictionary)
  {
    if data.JObj? then Ok(Keys(data.fields)) else Err(Exit(1, NotADictionary))
  }

  /** The column names and the rows to project. */
  datatype Source = Source(columns: seq<string>, rows: seq<Json>)

  /** The root-shape checks: an array of rows headed by an object, or one object as the single row. */
  function RowsSource(raw: Json): (r: Result<Source, Exit>)
    ensures raw.JArr? && |raw.items| == 0 ==> r == Err(Exit(0, EmptyArray))
    ensures r.Ok? <==> (raw.JObj? && |raw.fields| > 0)
                       || (raw.JArr? && |raw.items| > 0 && raw.items[0].JObj? && |raw.items[0].fields| > 0)
    ensures r.Ok? && raw.JObj? ==> r.value == Source(Keys(raw.fields), [raw])
    ensures r.Ok? && raw.JArr? ==> r.value == Source(Keys(raw.items[0].fields), raw.items)
    ensures r.Err? ==> (r.error.code == 0 <==> raw.JArr? && |raw.items| == 0)
  {
    var picked :=
      if raw.JArr? then
        if |raw.items| == 0 then Err(Exit(0, EmptyArray))
        else if !raw.items[0].JObj? then Err(Exit(1, FirstItemNotObject))
        else Ok(Source(ColumnNames(raw.items[0]).value, raw.items))
      else if raw.JObj? then Ok(Source(ColumnNames(raw).value, [raw]))
      else Err(Exit(1, BadRoot));
    if picked.Ok? && |picked.value.columns| == 0 then Err(Exit(1, NoColumns)) else picked
  }

  // ---------------------------------------------------------------- row projection

  /** A value bound to a statement parameter: passed through, or serialised JSON text. */
  datatype Cell = Value(v: Json) | Serialized(text: string)

  /** Objects and arrays go through `json.dumps`; every other value passes unchanged. */
  function CellOf(v: Json, dumps: Json -> string): (c: Cell)
    ensures c.Serialized? <==> v.JObj? || v.JArr?
    ensures c.Value? ==> c.v == v
    ensures c.Serialized? ==> c.text == dumps(v)
  {
    if v.JObj? || v.JArr? then Serialized(dumps(v)) else Value(v)
  }

  /** The tuple for one object row: `row.get(column)` for each column, in column order. */
  function Row(fields: seq<(string, Json)>, columns: seq<string>, dumps: Json -> string): (r: seq<Cell>)
    ensures |r| == |columns|
  {
    seq(|columns|, i requires 0 <= i < |columns| => CellOf(GetOr(fields, columns[i], JNull), dumps))
  }

  /** A column the row lacks is NULL; keys outside the columns do not matter. */
  lemma RowLookup(fields: seq<(string, Json)>, columns: seq<string>, dumps: Json -> string, i: nat)
    requires i < |columns|
    ensures (forall k :: 0 <= k < |fields| ==> fields[k].0 != columns[i]) ==> Row(fields, columns, dumps)[i] == Value(JNull)
    ensures forall k :: 0 <= k < |fields| && fields[k].0 == columns[i] && (forall l :: 0 <= l < k ==> fields[l].0 != columns[i])
                        ==> Row(fields, columns, dumps)[i] == CellOf(fields[k].1, dumps)
  {
    forall k | 0 <= k < |fields| && fields[k].0 == columns[i] && (forall l :: 0 <= l < k ==> fields[l].0 != columns[i])
      ensures Get(fields, columns[i]) == Some(fields[k].1)
    {
      GetFirst(fields, columns[i], k);
    }
  }

  lemma {:induction false} GetFirst(fields: seq<(string, Json)>, key: string, k: nat)
    requires k < |fields| && fields[k].0 == key && forall l :: 0 <= l < k ==> fields[l].0 != key
    ensures Get(fields, key) == Some(fields[k].1)
  {
    if k > 0 {
      GetFirst(fields[1..], key, k - 1);
    }
  }

  /** Two rows that agree on every column give the same tuple. */
  lemma RowOnlyReadsColumns(f: seq<(string, Json)>, g: seq<(string, Json)>, columns: seq<string>, dumps: Json -> string)
    requires forall i :: 0 <= i < |columns| ==> Get(f, columns[i]) == Get(g, columns[i])
    ensures Row(f, columns, dumps) == Row(g, columns, dumps)
  {
  }

  /** The object the columns came from gives back its own values in its own order. */
  lemma FirstRowInOrder(fields: seq<(string, Json)>, dumps: Json -> string)
    requires DistinctKeys(fields)
    ensures var r := Row(fields, Keys(fields), dumps);
            |r| == |fields| && forall i :: 0 <= i < |fields| ==> r[i] == CellOf(fields[i].1, dumps)
  {
    forall i | 0 <= i < |fields| ensures Get(fields, fields[i].0) == Some(fields[i].1) {
      GetDistinct(fields, i);
    }
  }

  /** The tuples, in row order, of the rows that are objects. */
  function Processed(rows: seq<Json>, columns: seq<string>, dumps: Json -> string): seq<seq<Cell>>
  {
    if |rows| == 0 then []
    else
      var last := rows[|rows| - 1];
      Processed(rows[..|rows| - 1], columns, dumps) + (if last.JObj? then [Row(last.fields, columns, dumps)] else [])
  }

  /** The rows skipped with a warning, in order. */
  function Skipped(rows: seq<Json>): seq<Json>
  {
    if |rows| == 0 then []
    else
      var last := rows[|rows| - 1];
      Skipped(rows[..|rows| - 1]) + (if last.JObj? then [] else [last])
  }

  /** Every row is either projected or skipped: none is lost and none is counted twice. */
  lemma {:induction false} ProcessedOrSkipped(rows: seq<Json>, columns: seq<string>, dumps: Json -> string)
    ensures |Processed(rows, columns, dumps)| + |Skipped(rows)| == |rows|
    ensures forall k :: 0 <= k < |Skipped(rows)| ==> !Skipped(rows)[k].JObj?
    ensures forall k :: 0 <= k < |Processed(rows, columns, dumps)| ==> |Processed(rows, columns, dumps)[k]| == |columns|
  {
    if |rows| > 0 {
      ProcessedOrSkipped(rows[..|rows| - 1], columns, dumps);
    }
  }

  /** When every row is an object, tuple `k` is row `k`'s projection. */
  lemma {:induction false} AllObjectsInOrder(rows: seq<Json>, columns: seq<string>, dumps: Json -> string)
    requires forall k :: 0 <= k < |rows| ==> rows[k].JObj?
    ensures |Processed(rows, columns, dumps)| == |rows|
    ensures forall k :: 0 <= k < |rows| ==> Processed(rows, columns, dumps)[k] == Row(rows[k].fields, columns, dumps)
  {
    if |rows| > 0 {
      var init := rows[..|rows| - 1];
      AllObjectsInOrder(init, columns, dumps);
      assert forall k :: 0 <= k < |init| ==> init[k] == rows[k];
    }
  }

  /** The inner loop: one value per column. */
  method ProjectRow(fields: seq<(string, Json)>, columns: seq<string>, dumps: Json -> string) returns (values: seq<Cell>)
    ensures values == Row(fields, columns, dumps)
  {
    values := [];
    for i := 0 to |columns|
      invariant values == Row(fields, columns[..i], dumps)
    {
      var value := Get(fields, columns[i]);
      var v := if value.Some? then value.value else JNull;
      if v.JObj? || v.JArr? {
        values := values + [Serialized(dumps(v))];
      } else {
        values := values + [Value(v)];
      }
      assert columns[..i + 1][i] == columns[i] && columns[..i + 1][..i] == columns[..i];
    }
    assert columns[..|columns|] == columns;
  }

  /** The outer loop: project each object row, skip the others. */
  method ProjectRows(rows: seq<Json>, columns: seq<string>, dumps: Json -> string)
    returns (processed: seq<seq<Cell>>, skipped: seq<Json>)
    ensures processed == Processed(rows, columns, dumps)
    ensures skipped == Skipped(rows)
  {
    processed, skipped := [], [];
    for i := 0 to |rows|
      invariant processed == Processed(rows[..i], columns, dumps)
      invariant skipped == Skipped(rows[..i])
    {
      assert rows[..i + 1][..i] == rows[..i];
      var item := rows[i];
      if !item.JObj? {
        skipped := skipped + [item];
      } else {
        var values := ProjectRow(item.fields, columns, dumps);
        processed := processed + [values];
      }
    }
    assert rows[..|rows|] == rows;
  }

  // ---------------------------------------------------------------- statements

  /** An identifier in double quotes, with no escaping. */
  function Quote(name: string): (r: string)
    ensures |r| == |name| + 2 && r[0] == '"' && r[|r| - 1] == '"'
  {
    "\"" + name + "\""
  }

  /** A name without a double quote is read back exactly from its quoted form. */
  lemma QuoteExact(name: string)
    requires '"' !in name
    ensures Quote(name)[1..|name| + 1] == name
    ensures forall i :: 0 < i < |name| + 1 ==> Quote(name)[i] != '"'
  {
  }

  /** A name holding a double quote closes its quoted identifier early. */
  lemma QuoteEndsEarly(name: string, j: nat)
    requires j < |name| && name[j] == '"'
    ensures Quote(name)[j + 1] == '"' && j + 1 < |Quote(name)| - 1
  {
  }

  function QuotedColumns(columns: seq<string>): (r: seq<string>)
    ensures |r| == |columns| && forall i :: 0 <= i < |columns| ==> r[i] == Quote(columns[i])
  {
    seq(|columns|, i requires 0 <= i < |columns| => Quote(columns[i]))
  }

  function CreateTableSql(table: string, columns: seq<string>): string
  {
    "CREATE TABLE IF NOT EXISTS " + Quote(table) + " ("
    + Join(seq(|columns|, i requires 0 <= i < |columns| => Quote(columns[i]) + " TEXT"), ", ") + ")"
  }

  function Repeat(x: string, n: nat): (r: seq<string>)
    ensures |r| == n && forall i :: 0 <= i < n ==> r[i] == x
  {
    seq(n, _ => x)
  }

  /** `", ".join(["?"] * n)`. */
  function Placeholders(n: nat): string
  {
    Join(Repeat("?", n), ", ")
  }

  function InsertSql(table: string, columns: seq<string>): string
  {
    "INSERT INTO " + Quote(table) + " (" + Join(QuotedColumns(columns), ", ") + ") VALUES ("
    + Placeholders(|columns|) + ")"
  }

  function CountChar(s: string, c: char): nat
  {
    if |s| == 0 then 0 else (if s[0] == c then 1 else 0) + CountChar(s[1..], c)
  }

  lemma {:induction false} CountAppend(a: string, b: string, c: char)
    ensures CountChar(a + b, c) == CountChar(a, c) + CountChar(b, c)
  {
    if |a| > 0 {
      assert (a + b)[1..] == a[1..] + b;
      CountAppend(a[1..], b, c);
    } else {
      assert a + b == b;
    }
  }

  /** The statement has exactly one parameter marker per column. */
  lemma {:induction false} PlaceholderCount(n: nat)
    ensures CountChar(Placeholders(n), '?') == n
  {
    if n > 1 {
      assert Repeat("?", n)[1..] == Repeat("?", n - 1);
      PlaceholderCount(n - 1);
      CountAppend("?" + ", ", Placeholders(n - 1), '?');
      assert CountChar("?, ", '?') == 1;
    } else if n == 1 {
      assert Placeholders(1) == "?";
    }
  }

  // ---------------------------------------------------------------- the whole run

  /** What reaches SQLite: the two statements, the tuples, the skipped rows and the closing line. */
  datatype Load = Load(createSql: string, insertSql: string, rows: seq<seq<Cell>>, skipped: seq<Json>, message: string)

  function InsertedMessage(count: nat, table: string, dbFile: string): string
  {
    NatToString(count) + " row(s) inserted/updated in table '" + table + "' in database '" + dbFile + "'."
  }

  /**
   * main after loading: the root checks, the table statement, one tuple per object row in
   * order, and the closing line. Rows are inserted (and committed) only when there is one.
   */
  method JsonToTable(raw: Json, table: string, dbFile: string, dumps: Json -> string) returns (r: Result<Load, Exit>)
    ensures r.Err? <==> RowsSource(raw).Err?
    ensures r.Err? ==> r.error == RowsSource(raw).error
    ensures r.Ok? ==> var src := RowsSource(raw).value;
                      r.value.createSql == CreateTableSql(table, src.columns)
                      && r.value.insertSql == InsertSql(table, src.columns)
                      && r.value.rows == Processed(src.rows, src.columns, dumps)
                      && r.value.skipped == Skipped(src.rows)
                      && r.value.message == (if |r.value.rows| > 0 then InsertedMessage(|r.value.rows|, table, dbFile) else NoValidRows)
  {
    var source := RowsSource(raw);
    if source.Err? {
      return Err(source.error);
    }
    var columns := source.value.columns;
    var createSql := CreateTableSql(table, columns);
    var insertSql := InsertSql(table, columns);
    var processed, skipped := ProjectRows(source.value.rows, columns, dumps);
    var message := if |processed| > 0 then InsertedMessage(|processed|, table, dbFile) else NoValidRows;
    return Ok(Load(createSql, insertSql, processed, skipped, message));
  }

  /** An object root loads as exactly one row holding its own values, in its key order. */
  lemma ObjectRootOneRow(fields: seq<(string, Json)>, dumps: Json -> string)
    requires |fields| > 0 && DistinctKeys(fields)
    ensures var src := RowsSource(JObj(fields)).value;
            Processed(src.rows, src.columns, dumps) == [Row(fields, Keys(fields), dumps)]
            && forall i :: 0 <= i < |fields| ==> Processed(src.rows, src.columns, dumps)[0][i] == CellOf(fields[i].1, dumps)
  {
    var src := RowsSource(JObj(fields)).value;
    assert src.rows[..0] == [];
    FirstRowInOrder(fields, dumps);
  }
}
