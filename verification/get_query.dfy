/**
 * The select builder, `buildGetQuery(req, next, table)`: always `SELECT *`,
 * the filter clauses, an optional `GROUP BY … ORDER BY …` from `sort`, and
 * `LIMIT size OFFSET from`. A thrown 400 is handed to `next` and the builder
 * returns `undefined`; the model returns `Err`.
 */
module GetQuery {
  import opened Wrappers
  import opened Js
  import opened SqlText
  import opened Errors
  import opened Filters

  /** `{ query, params }`, keeping the `queryArray` whose elements are joined with single spaces. */
  datatype SelectQuery = SelectQuery(queryArray: seq<Text>, params: seq<Value>) {
    function Query(): Text {
      JoinPieces(queryArray, [Lit(" ")])
    }
  }

  function SelectHead(table: string): Text {
    [Lit("SELECT * FROM " + table)]
  }

  /** The WHERE pieces and parameters: the multi-clause loop, or one of the three single-clause forms. */
  function SelectWhere(cs: seq<Clause>, sdate: Value, edate: Value): (seq<Text>, seq<Value>) {
    if |cs| > 1 then (MultiWhere(cs, sdate, edate), MultiParams(cs))
    else if |cs| == 1 then
      var c := cs[0];
      if c.kind == Date then ([Between(c.key, sdate, edate)], [])
      else if c.kind == Like then ([[Lit("WHERE " + c.key + " LIKE '%" + ToText(c.value) + "%'")]], [])
      else ([[Lit("WHERE " + c.key + " = "), Ph(1)]], [c.value])
    else ([], [])
  }

  /**
   * With a single clause: a date range renders without `WHERE`; a `like`
   * value is written into the text and binds nothing; every other kind,
   * `not` and `or` included, becomes `WHERE key = $1` bound to the raw value.
   */
  lemma SelectWhereSingle(c: Clause, sdate: Value, edate: Value)
    ensures var (w, ps) := SelectWhere([c], sdate, edate);
      && (c.kind == Date ==> w == [Between(c.key, sdate, edate)] && ps == [])
      && (c.kind == Like ==> ps == [] && PiecePlaceholders(w) == [] &&
                             Render(w[0]) == "WHERE " + c.key + " LIKE '%" + ToText(c.value) + "%'")
      && (c.kind != Date && c.kind != Like ==> w == [[Lit("WHERE " + c.key + " = "), Ph(1)]] && ps == [c.value])
  {
    var (w, ps) := SelectWhere([c], sdate, edate);
    if c.kind == Like {
      assert PiecePlaceholders(w) == Placeholders(w[0]) + PiecePlaceholders([]);
      assert Render(w[0]) == TokText(w[0][0]) + Render([]);
    }
  }

  /** Whatever the clauses, the WHERE placeholders are exactly $1..$|params|. */
  lemma SelectWhereBinding(cs: seq<Clause>, sdate: Value, edate: Value)
    requires DateOnlyLast(cs)
    ensures PiecePlaceholders(SelectWhere(cs, sdate, edate).0) == Numbered(1, |SelectWhere(cs, sdate, edate).1|)
  {
    var (w, ps) := SelectWhere(cs, sdate, edate);
    if |cs| > 1 {
      MultiBinding(cs, sdate, edate);
    } else if |cs| == 1 {
      assert cs == [cs[0]];
      SelectWhereSingle(cs[0], sdate, edate);
      SinglePiecePlaceholders("WHERE " + cs[0].key + " = ");
      SinglePiecePlaceholders(cs[0].key + " BETWEEN " + ToText(sdate) + " AND " + ToText(edate));
    }
  }

  // ---------------------------------------------------------------------------
  // Sort and pagination
  // ---------------------------------------------------------------------------

  /** `getSortString(raw)`: a string, or the first element of an array when it is a string. */
  function SortString(raw: Value): (r: Option<string>)
    ensures raw.Str? ==> r == Some(raw.s)
    ensures r.Some? && !raw.Str? ==> raw.Arr? && |raw.items| > 0 && raw.items[0] == Str(r.value)
    ensures !raw.Str? && !raw.Arr? ==> r.None?
    ensures raw.Arr? && |raw.items| > 0 && raw.items[0].Str? ==> r == Some(raw.items[0].s)
    ensures raw.Arr? && (|raw.items| == 0 || !raw.items[0].Str?) ==> r.None?
  {
    match raw
    case Str(s) => Some(s)
    case Arr(items) => if |items| > 0 && items[0].Str? then Some(items[0].s) else None
    case _ => None
  }

  /** `sort` with its default `''`. */
  function SortValue(q: Fields): Value {
    if Get(q, "sort").Undefined? then Str("") else Get(q, "sort")
  }

  datatype SortSpec = SortSpec(column: string, desc: bool)

  /** A non-empty sort string must split on `:` into exactly two parts; only `desc` selects descending order. */
  function ParseSort(raw: Value): (r: Result<Option<SortSpec>, Error>)
    ensures r.Err? <==> SortString(raw).Some? && SortString(raw).value != "" && CountChar(SortString(raw).value, ':') != 1
    ensures r.Err? ==> r.error == BadRequest
    ensures r == Ok(None) <==> SortString(raw).None? || SortString(raw).value == ""
  {
    match SortString(raw)
    case None => Ok(None)
    case Some(s) =>
      if s == "" then Ok(None)
      else
        var parts := Split(s, ':');
        if |parts| == 2 then Ok(Some(SortSpec(parts[0], parts[1] == "desc")))
        else Err(BadRequest)
  }

  /** `column:direction` sorts by `column`, descending exactly when the direction is `desc`. */
  lemma ParseSortColumnDirection(column: string, direction: string)
    requires ':' !in column && ':' !in direction
    ensures ParseSort(Str(column + ":" + direction)) == Ok(Some(SortSpec(column, direction == "desc")))
  {
    JoinSplit([column, direction], ':');
    assert Join([column, direction], ':') == column + ":" + direction;
  }

  function SortPiece(spec: SortSpec, snake: string -> string): Text {
    var col := snake(spec.column);
    [Lit("GROUP BY id, " + col + " ORDER BY " + col + " " + (if spec.desc then "DESC" else "ASC"))]
  }

  /** The sort pieces of a request query: none for an empty sort. */
  function SortPieces(q: Fields, snake: string -> string): Result<seq<Text>, Error> {
    var spec :- ParseSort(SortValue(q));
    if spec.Some? then Ok([SortPiece(spec.value, snake)]) else Ok([])
  }

  /** `LIMIT ${size} OFFSET ${from}` with the defaults 10 and 0, interpolated as-is. */
  function LimitPiece(q: Fields): Text {
    var size := if Get(q, "size").Undefined? then "10" else ToText(Get(q, "size"));
    var from := if Get(q, "from").Undefined? then "0" else ToText(Get(q, "from"));
    [Lit("LIMIT " + size + " OFFSET " + from)]
  }

  // ---------------------------------------------------------------------------
  // The builder
  // ---------------------------------------------------------------------------

  /** `buildGetQuery(req, next, table)` on the request query `q`. */
  function BuildGetQuery(q: Fields, table: string, snake: string -> string): (r: Result<SelectQuery, Error>)
    ensures r.Err? <==> Clauses(q, snake).Err? || SortPieces(q, snake).Err?
    ensures r.Err? ==> r.error == BadRequest
    ensures r.Ok? ==> var w := SelectWhere(Clauses(q, snake).value, Get(q, "sdate"), Get(q, "edate"));
      && r.value.queryArray == [SelectHead(table)] + w.0 + SortPieces(q, snake).value + [LimitPiece(q)]
      && r.value.params == w.1
  {
    var cs :- Clauses(q, snake);
    var w := SelectWhere(cs, Get(q, "sdate"), Get(q, "edate"));
    var sort :- SortPieces(q, snake);
    Ok(SelectQuery([SelectHead(table)] + w.0 + sort + [LimitPiece(q)], w.1))
  }

  /** Pieces made of literal text only. */
  predicate LiteralPieces(pieces: seq<Text>) {
    forall i :: 0 <= i < |pieces| ==> |pieces[i]| == 1 && pieces[i][0].Lit?
  }

  lemma {:induction false} LiteralPiecesPlaceholders(pieces: seq<Text>)
    requires LiteralPieces(pieces)
    ensures PiecePlaceholders(pieces) == []
    decreases |pieces|
  {
    if |pieces| > 0 {
      assert Placeholders(pieces[0]) == [] + Placeholders(pieces[0][1..]);
      assert LiteralPieces(pieces[1..]) by {
        forall i | 0 <= i < |pieces[1..]| ensures |pieces[1..][i]| == 1 && pieces[1..][i][0].Lit? {
          assert pieces[1..][i] == pieces[i + 1];
        }
      }
      LiteralPiecesPlaceholders(pieces[1..]);
    }
  }

  lemma SortPiecesLiteral(q: Fields, snake: string -> string)
    requires SortPieces(q, snake).Ok?
    ensures LiteralPieces(SortPieces(q, snake).value)
  {
  }

  /** Every placeholder of the select text refers to exactly one parameter: they are $1..$|params| in order. */
  lemma SelectPlaceholders(q: Fields, table: string, snake: string -> string)
    requires BuildGetQuery(q, table, snake).Ok?
    ensures var s := BuildGetQuery(q, table, snake).value;
      Placeholders(s.Query()) == Numbered(1, |s.params|)
  {
    var s := BuildGetQuery(q, table, snake).value;
    var cs := Clauses(q, snake).value;
    var w := SelectWhere(cs, Get(q, "sdate"), Get(q, "edate"));
    var head := [SelectHead(table)];
    var sort := SortPieces(q, snake).value;
    var limit := [LimitPiece(q)];
    assert s.queryArray == head + w.0 + sort + limit;
    assert s.params == w.1;
    assert Placeholders([Lit(" ")]) == [];
    JoinPiecesPlaceholders(s.queryArray, [Lit(" ")]);
    PiecePlaceholdersAppend(head, w.0);
    PiecePlaceholdersAppend(head + w.0, sort);
    PiecePlaceholdersAppend(head + w.0 + sort, limit);
    LiteralPiecesPlaceholders(head);
    LiteralPiecesPlaceholders(limit);
    SortPiecesLiteral(q, snake);
    LiteralPiecesPlaceholders(sort);
    SelectWhereBinding(cs, Get(q, "sdate"), Get(q, "edate"));
  }

  /**
   * A request query without reserved keys gets the defaults: no date range,
   * no sort pieces, and `LIMIT 10 OFFSET 0` last.
   */
  lemma SelectDefaults(q: Fields, table: string, snake: string -> string)
    requires forall i :: 0 <= i < |q| ==> q[i].0 !in Reserved
    requires BuildGetQuery(q, table, snake).Ok?
    ensures var s := BuildGetQuery(q, table, snake).value;
      && s.queryArray[|s.queryArray| - 1] == [Lit("LIMIT 10 OFFSET 0")]
      && |s.queryArray| == 2 + |SelectWhere(Clauses(q, snake).value, Undefined, Undefined).0|
      && NoDate(Clauses(q, snake).value)
  {
    GetAbsent(q, "sdate");
    GetAbsent(q, "size");
    GetAbsent(q, "sort");
    GetAbsent(q, "from");
    assert Get(q, "sdate") == Undefined && Get(q, "size") == Undefined && Get(q, "sort") == Undefined;
    assert Get(q, "from") == Undefined;
    assert SortPieces(q, snake) == Ok([]);
    assert "LIMIT " + "10" + " OFFSET " + "0" == "LIMIT 10 OFFSET 0";
    assert LimitPiece(q) == [Lit("LIMIT 10 OFFSET 0")];
    var s := BuildGetQuery(q, table, snake).value;
    var w := SelectWhere(Clauses(q, snake).value, Undefined, Undefined);
    assert s.queryArray == [SelectHead(table)] + w.0 + [] + [LimitPiece(q)];
  }
}
