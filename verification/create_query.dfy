/**
 * The insert builder, `buildCreateQuery(tableName, body, file?)`: one quoted
 * snake_case column per body key, each value passed through `JSON.parse`
 * when that succeeds, and an optional file column `<table>_<field>` bound to
 * the stored file name. It never fails: an empty body gives an empty column
 * list.
 */
module CreateQuery {
  import opened Wrappers
  import opened Js
  import opened SqlText

  /** The uploaded file: the form field it came in and the name it was stored under. */
  datatype File = File(fieldname: string, filename: string)

  /** `try { return JSON.parse(val) } catch { return val }`, with `JSON.parse` given as `parse` (`None` when it throws). */
  function ParsedOrRaw(parse: Value -> Option<Value>, val: Value): (r: Value)
    ensures parse(val).None? ==> r == val
    ensures parse(val).Some? ==> r == parse(val).value
  {
    match parse(val)
    case Some(parsed) => parsed
    case None => val
  }

  /** `"k1", "k2", …` */
  function ColumnList(columns: seq<string>): string {
    JoinText(seq(|columns|, i requires 0 <= i < |columns| => "\"" + columns[i] + "\""), ", ")
  }

  /** `$1`, `$2`, …, `$n` as single-token pieces. */
  function PlaceholderPieces(n: nat): (r: seq<Text>)
    ensures |r| == n
    ensures forall i :: 0 <= i < n ==> r[i] == [Ph(i + 1)]
  {
    seq(n, i requires 0 <= i < n => [Ph(i + 1)])
  }

  datatype InsertStatement = InsertStatement(table: string, columns: seq<string>, values: seq<Value>) {
    /** `INSERT INTO ${tableName} (${columns}) VALUES (${placeholders}) RETURNING *`, one placeholder per column. */
    function Query(): Text {
      [Lit("INSERT INTO " + table + " (" + ColumnList(columns) + ") VALUES (")] +
      JoinPieces(PlaceholderPieces(|columns|), [Lit(", ")]) +
      [Lit(") RETURNING *")]
    }
  }

  /** `buildCreateQuery(tableName, body, file)` with `toSnakeCase` as `snake` and `JSON.parse` as `parse`. */
  function BuildCreateQuery(table: string, body: Fields, file: Option<File>,
                            snake: string -> string, parse: Value -> Option<Value>): (r: InsertStatement)
    ensures r.table == table
    ensures |r.columns| == |r.values| == |body| + (if file.Some? then 1 else 0)
    ensures forall i :: 0 <= i < |body| ==>
      r.columns[i] == snake(body[i].0) && r.values[i] == ParsedOrRaw(parse, Get(body, body[i].0))
    ensures file.Some? ==>
      r.columns[|body|] == table + "_" + snake(file.value.fieldname) && r.values[|body|] == Str(file.value.filename)
  {
    var keys := Keys(body);
    var snakeKeys := seq(|keys|, i requires 0 <= i < |keys| => snake(keys[i]));
    var values := seq(|keys|, i requires 0 <= i < |keys| => ParsedOrRaw(parse, Get(body, keys[i])));
    match file
    case Some(f) =>
      InsertStatement(table, snakeKeys + [table + "_" + snake(f.fieldname)], values + [Str(f.filename)])
    case None =>
      InsertStatement(table, snakeKeys, values)
  }

  /** In an object with distinct keys, `body[key]` is the entry's own value. */
  lemma {:induction false} GetOwnEntry(f: Fields, i: nat)
    requires DistinctKeys(f) && i < |f|
    ensures Get(f, f[i].0) == f[i].1
    decreases |f|
  {
    if i > 0 {
      assert f[0].0 != f[i].0;
      assert DistinctKeys(f[1..]) by {
        forall a, b | 0 <= a < b < |f[1..]| ensures f[1..][a].0 != f[1..][b].0 {
          assert f[1..][a] == f[a + 1] && f[1..][b] == f[b + 1];
        }
      }
      GetOwnEntry(f[1..], i - 1);
    }
  }

  /** For a body with distinct keys, every column is bound to its own entry's (possibly parsed) value. */
  lemma CreateBinding(table: string, body: Fields, file: Option<File>, snake: string -> string, parse: Value -> Option<Value>)
    requires DistinctKeys(body)
    ensures var r := BuildCreateQuery(table, body, file, snake, parse);
      forall i :: 0 <= i < |body| ==> r.values[i] == ParsedOrRaw(parse, body[i].1)
  {
    forall i | 0 <= i < |body| {
      GetOwnEntry(body, i);
    }
  }

  /** The placeholders $1..$n number the columns. */
  lemma {:induction false} PlaceholderPiecesNumbered(n: nat)
    ensures PiecePlaceholders(PlaceholderPieces(n)) == Numbered(1, n)
    decreases n
  {
    if n > 0 {
      var p := PlaceholderPieces(n);
      PlaceholderPiecesNumbered(n - 1);
      assert p[..n - 1] == PlaceholderPieces(n - 1);
      assert p == p[..n - 1] + [p[n - 1]];
      PiecePlaceholdersAppend(p[..n - 1], [p[n - 1]]);
      assert PiecePlaceholders([p[n - 1]]) == Placeholders([Ph(n)]) + PiecePlaceholders([]);
      assert Placeholders([Ph(n)]) == [n] + Placeholders([]);
      NumberedSplit(1, n - 1, 1);
    }
  }

  /** One placeholder per value, numbered $1..$|values| in order. */
  lemma CreatePlaceholders(table: string, body: Fields, file: Option<File>, snake: string -> string, parse: Value -> Option<Value>)
    ensures var r := BuildCreateQuery(table, body, file, snake, parse);
      Placeholders(r.Query()) == Numbered(1, |r.values|)
  {
    var r := BuildCreateQuery(table, body, file, snake, parse);
    var head: Text := [Lit("INSERT INTO " + table + " (" + ColumnList(r.columns) + ") VALUES (")];
    var phs := JoinPieces(PlaceholderPieces(|r.columns|), [Lit(", ")]);
    var tail: Text := [Lit(") RETURNING *")];
    assert r.Query() == head + phs + tail;
    assert Placeholders([Lit(", ")]) == [] + Placeholders([]);
    JoinPiecesPlaceholders(PlaceholderPieces(|r.columns|), [Lit(", ")]);
    PlaceholderPiecesNumbered(|r.columns|);
    assert Placeholders(head) == [] + Placeholders([]);
    assert Placeholders(tail) == [] + Placeholders([]);
    PlaceholdersAppend(head, phs);
    PlaceholdersAppend(head + phs, tail);
  }

  /** An empty body without a file is not rejected: it yields `INSERT INTO t () VALUES () RETURNING *`. */
  lemma CreateEmpty(table: string, snake: string -> string, parse: Value -> Option<Value>)
    ensures var r := BuildCreateQuery(table, [], None, snake, parse);
      && r.columns == [] && r.values == []
      && Render(r.Query()) == "INSERT INTO " + table + " () VALUES () RETURNING *"
  {
    var r := BuildCreateQuery(table, [], None, snake, parse);
    assert ColumnList([]) == "";
    assert PlaceholderPieces(0) == [];
    var head := "INSERT INTO " + table + " () VALUES (";
    assert "INSERT INTO " + table + " (" + "" + ") VALUES (" == head;
    assert r.Query() == [Lit(head), Lit(") RETURNING *")];
    RenderLits(head, ") RETURNING *");
  }
}
