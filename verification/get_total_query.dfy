/**
 * The count builder, `buildGetTotalQuery(req, next, table)`: the same filter
 * clauses as the select builder under `SELECT COUNT(*) AS total`, with no
 * sort and no page. It calls `toString()` on `from`, `sort` and `size`
 * before anything else, so a `null` there throws a `TypeError`; a sort
 * string is otherwise never inspected.
 */
module GetTotalQuery {
  import opened Wrappers
  import opened Js
  import opened SqlText
  import opened Errors
  import opened Filters
  import opened GetQuery

  /** `{ totalQuery, totalParams }`, keeping the `queryArray` whose elements are joined with single spaces. */
  datatype CountQuery = CountQuery(queryArray: seq<Text>, totalParams: seq<Value>) {
    function Query(): Text {
      JoinPieces(queryArray, [Lit(" ")])
    }
  }

  function CountHead(table: string): Text {
    [Lit("SELECT COUNT(*) AS total FROM " + table)]
  }

  /** The WHERE pieces and parameters: the multi-clause loop, or one of the two single-clause forms. */
  function TotalWhere(cs: seq<Clause>, sdate: Value, edate: Value): (seq<Text>, seq<Value>) {
    if |cs| > 1 then (MultiWhere(cs, sdate, edate), MultiParams(cs))
    else if |cs| == 1 then
      var c := cs[0];
      if c.kind != Date then ([[Lit("WHERE " + c.key + " = "), Ph(1)]], [c.value])
      else ([Between(c.key, sdate, edate)], [])
    else ([], [])
  }

  /** `from.toString()`, `sort.toString()` or `size.toString()` throws: one of them is `null` (an absent key takes its default). */
  predicate PagingNull(q: Fields) {
    Get(q, "from").Null? || Get(q, "sort").Null? || Get(q, "size").Null?
  }

  /** `buildGetTotalQuery(req, next, table)` on the request query `q`. */
  function BuildGetTotalQuery(q: Fields, table: string, snake: string -> string): (r: Result<CountQuery, Error>)
    ensures r.Err? <==> PagingNull(q) || Clauses(q, snake).Err?
    ensures PagingNull(q) ==> r == Err(TypeError)
    ensures !PagingNull(q) && r.Err? ==> r.error == BadRequest
    ensures r.Ok? ==> var w := TotalWhere(Clauses(q, snake).value, Get(q, "sdate"), Get(q, "edate"));
      && r.value.queryArray == [CountHead(table)] + w.0
      && r.value.totalParams == w.1
  {
    if PagingNull(q) then Err(TypeError)
    else
      var cs :- Clauses(q, snake);
      var w := TotalWhere(cs, Get(q, "sdate"), Get(q, "edate"));
      Ok(CountQuery([CountHead(table)] + w.0, w.1))
  }

  /** With a single clause, every kind but a date range, `like` included, becomes `WHERE key = $1` bound to the raw value. */
  lemma TotalWhereSingle(c: Clause, sdate: Value, edate: Value)
    ensures var (w, ps) := TotalWhere([c], sdate, edate);
      && (c.kind == Date ==> w == [Between(c.key, sdate, edate)] && ps == [])
      && (c.kind != Date ==> w == [[Lit("WHERE " + c.key + " = "), Ph(1)]] && ps == [c.value])
  {
  }

  /** Whatever the clauses, the WHERE placeholders are exactly $1..$|params|. */
  lemma TotalWhereBinding(cs: seq<Clause>, sdate: Value, edate: Value)
    requires DateOnlyLast(cs)
    ensures PiecePlaceholders(TotalWhere(cs, sdate, edate).0) == Numbered(1, |TotalWhere(cs, sdate, edate).1|)
  {
    var (w, ps) := TotalWhere(cs, sdate, edate);
    if |cs| > 1 {
      MultiBinding(cs, sdate, edate);
    } else if |cs| == 1 {
      assert cs == [cs[0]];
      TotalWhereSingle(cs[0], sdate, edate);
      SinglePiecePlaceholders("WHERE " + cs[0].key + " = ");
      SinglePiecePlaceholders(cs[0].key + " BETWEEN " + ToText(sdate) + " AND " + ToText(edate));
    }
  }

  /** Every placeholder of the count text refers to exactly one parameter: they are $1..$|totalParams| in order. */
  lemma TotalPlaceholders(q: Fields, table: string, snake: string -> string)
    requires BuildGetTotalQuery(q, table, snake).Ok?
    ensures var t := BuildGetTotalQuery(q, table, snake).value;
      Placeholders(t.Query()) == Numbered(1, |t.totalParams|)
  {
    var t := BuildGetTotalQuery(q, table, snake).value;
    var cs := Clauses(q, snake).value;
    var w := TotalWhere(cs, Get(q, "sdate"), Get(q, "edate"));
    var head := [CountHead(table)];
    assert t.queryArray == head + w.0;
    assert Placeholders([Lit(" ")]) == [];
    JoinPiecesPlaceholders(t.queryArray, [Lit(" ")]);
    PiecePlaceholdersAppend(head, w.0);
    LiteralPiecesPlaceholders(head);
    TotalWhereBinding(cs, Get(q, "sdate"), Get(q, "edate"));
  }

  /** Re-assigning an excluded key does not change what is left. */
  lemma {:induction false} WithoutAssign(f: Fields, k: string, v: Value, keys: set<string>)
    requires k in keys
    ensures Without(Assign(f, k, v), keys) == Without(f, keys)
    decreases |f|
  {
    if |f| > 0 && f[0].0 != k {
      var r := Assign(f, k, v);
      assert r == [f[0]] + Assign(f[1..], k, v);
      assert r[1..] == Assign(f[1..], k, v);
      WithoutAssign(f[1..], k, v, keys);
    } else if |f| > 0 {
      assert Assign(f, k, v)[1..] == f[1..];
    }
  }

  /** The sort string never reaches the count: replacing a non-null sort by any string leaves the count query unchanged. */
  lemma TotalIgnoresSort(q: Fields, table: string, snake: string -> string, sort: string)
    requires !Get(q, "sort").Null?
    ensures BuildGetTotalQuery(Assign(q, "sort", Str(sort)), table, snake) == BuildGetTotalQuery(q, table, snake)
  {
    var q' := Assign(q, "sort", Str(sort));
    WithoutAssign(q, "sort", Str(sort), Reserved);
    assert FilterEntries(q') == FilterEntries(q);
    assert Get(q', "sdate") == Get(q, "sdate") && Get(q', "edate") == Get(q, "edate");
    assert DateColumn(q') == DateColumn(q);
    assert Clauses(q', snake) == Clauses(q, snake);
    assert PagingNull(q') == PagingNull(q);
  }

  /**
   * The select and count builders agree on the filters. When the select
   * succeeds and no paging key is `null`, the count succeeds too. Apart from
   * a lone `like` clause, both bind the same parameters, and the select
   * pieces are the count pieces between the select head and the sort and
   * page pieces. A lone `like` clause is inlined into the select text,
   * while the count binds it as `key = $1`.
   */
  lemma SelectCountAgree(q: Fields, table: string, snake: string -> string)
    requires BuildGetQuery(q, table, snake).Ok?
    requires !PagingNull(q)
    ensures BuildGetTotalQuery(q, table, snake).Ok?
    ensures var s := BuildGetQuery(q, table, snake).value;
      var t := BuildGetTotalQuery(q, table, snake).value;
      var cs := Clauses(q, snake).value;
      if |cs| == 1 && cs[0].kind == Like then
        && s.params == []
        && t.totalParams == [cs[0].value]
        && t.queryArray == [CountHead(table), [Lit("WHERE " + cs[0].key + " = "), Ph(1)]]
      else
        && s.params == t.totalParams
        && s.queryArray == [SelectHead(table)] + t.queryArray[1..] + SortPieces(q, snake).value + [LimitPiece(q)]
  {
    var cs := Clauses(q, snake).value;
    var t := BuildGetTotalQuery(q, table, snake).value;
    var sd, ed := Get(q, "sdate"), Get(q, "edate");
    assert t.queryArray[1..] == TotalWhere(cs, sd, ed).0;
    if |cs| == 1 {
      SelectWhereSingle(cs[0], sd, ed);
      TotalWhereSingle(cs[0], sd, ed);
      assert cs == [cs[0]];
    }
  }
}
