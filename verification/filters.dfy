/**
 * Filter parsing and WHERE rendering shared by the select and count builders
 * (src/utils/query/buildGetQuery.ts and src/utils/query/buildGetTotalQuery.ts
 * carry the same code, line for line).
 *
 * Every request-query key other than the reserved ones is split on `.`:
 * `k` is an equality filter, `k.like`, `k.not`, `k.or` select the other
 * kinds, any other two-part key is silently ignored, and a key with three or
 * more parts is a 400. A date-range clause is appended when both `sdate` and
 * `edate` are truthy.
 */
module Filters {
  import opened Wrappers
  import opened Js
  import opened SqlText
  import opened Errors

  datatype Kind = Match | Like | Not | Or | Date

  datatype Clause = Clause(key: string, value: Value, kind: Kind)

  /** Keys taken out of the request query by the destructuring pattern. */
  const Reserved: set<string> := {"from", "size", "sort", "sdate", "edate", "date"}

  /** `...body`: the request query without the reserved keys, in order. */
  function FilterEntries(q: Fields): Fields {
    Without(q, Reserved)
  }

  /** A reserved key never reaches the filter list; every other entry does. */
  lemma FilterEntriesExact(q: Fields)
    ensures forall i :: 0 <= i < |FilterEntries(q)| ==> FilterEntries(q)[i].0 !in Reserved
    ensures forall i :: 0 <= i < |q| && q[i].0 !in Reserved ==> q[i] in FilterEntries(q)
  {
  }

  function SuffixKind(suffix: string): Option<Kind> {
    if suffix == "like" then Some(Like)
    else if suffix == "not" then Some(Not)
    else if suffix == "or" then Some(Or)
    else None
  }

  /**
   * One iteration of the `forEach` over the filter entries: the clause the
   * entry adds, none for an unknown two-part suffix, or the 400.
   */
  function Classify(key: string, value: Value, snake: string -> string): (r: Result<Option<Clause>, Error>)
    ensures r.Err? <==> CountChar(key, '.') >= 2
    ensures r.Err? ==> r.error == BadRequest
    ensures CountChar(key, '.') == 0 ==> r == Ok(Some(Clause(snake(key), value, Match)))
    ensures r.Ok? && r.value.Some? ==> r.value.value.kind != Date && r.value.value.value == value
  {
    var parts := Split(key, '.');
    if |parts| == 1 then
      SplitJoin(key, '.');
      Ok(Some(Clause(snake(key), value, Match)))
    else if |parts| == 2 then
      match SuffixKind(parts[1])
      case Some(kind) => Ok(Some(Clause(snake(parts[0]), value, kind)))
      case None => Ok(None)
    else
      Err(BadRequest)
  }

  /** A two-part key `a.b` is classified by its suffix `b`; an unknown suffix adds nothing and raises nothing. */
  lemma ClassifyTwoParts(a: string, b: string, value: Value, snake: string -> string)
    requires '.' !in a && '.' !in b
    ensures Classify(a + "." + b, value, snake) ==
      match SuffixKind(b)
      case Some(kind) => Ok(Some(Clause(snake(a), value, kind)))
      case None => Ok(None)
  {
    JoinSplit([a, b], '.');
    assert Join([a, b], '.') == a + "." + b;
  }

  /** The clause list built by the `forEach` over the filter entries, in encounter order. */
  function ParseFilters(entries: Fields, snake: string -> string): (r: Result<seq<Clause>, Error>)
    ensures r.Err? <==> exists i :: 0 <= i < |entries| && CountChar(entries[i].0, '.') >= 2
    ensures r.Err? ==> r.error == BadRequest
    ensures r.Ok? ==> |r.value| <= |entries|
    ensures r.Ok? ==> forall i :: 0 <= i < |r.value| ==> r.value[i].kind != Date
    decreases |entries|
  {
    if |entries| == 0 then Ok([])
    else
      var head := Classify(entries[0].0, entries[0].1, snake);
      var rest := ParseFilters(entries[1..], snake);
      assert forall i :: 1 <= i < |entries| ==> entries[i] == entries[1..][i - 1];
      if head.Err? then Err(head.error)
      else if rest.Err? then Err(rest.error)
      else Ok((if head.value.Some? then [head.value.value] else []) + rest.value)
  }

  /** Every plain (dot-free) filter key yields its equality clause. */
  lemma {:induction false} ParseFiltersKeepsMatch(entries: Fields, snake: string -> string, j: nat)
    requires j < |entries|
    requires CountChar(entries[j].0, '.') == 0
    requires ParseFilters(entries, snake).Ok?
    ensures Clause(snake(entries[j].0), entries[j].1, Match) in ParseFilters(entries, snake).value
    decreases |entries|
  {
    if j > 0 {
      assert entries[1..][j - 1] == entries[j];
      ParseFiltersKeepsMatch(entries[1..], snake, j - 1);
    }
  }

  /**
   * Parsing works entry by entry: the clauses of `a + b` are those of `a`
   * followed by those of `b`, and the list is rejected exactly when one of
   * the two is. With `ParseFiltersSingle` this pins the whole list down:
   * one clause or none per entry, in entry order, which is the order the
   * `$i` placeholders bind in.
   */
  lemma {:induction false} ParseFiltersAppend(a: Fields, b: Fields, snake: string -> string)
    ensures ParseFilters(a + b, snake).Ok? <==> ParseFilters(a, snake).Ok? && ParseFilters(b, snake).Ok?
    ensures ParseFilters(a + b, snake).Ok? ==>
      ParseFilters(a + b, snake).value == ParseFilters(a, snake).value + ParseFilters(b, snake).value
    decreases |a|
  {
    if |a| == 0 {
      assert a + b == b;
    } else {
      assert (a + b)[0] == a[0];
      assert (a + b)[1..] == a[1..] + b;
      ParseFiltersAppend(a[1..], b, snake);
      var head := Classify(a[0].0, a[0].1, snake);
      if head.Ok? && ParseFilters(a[1..], snake).Ok? && ParseFilters(b, snake).Ok? {
        var h := if head.value.Some? then [head.value.value] else [];
        assert h + (ParseFilters(a[1..], snake).value + ParseFilters(b, snake).value) ==
               (h + ParseFilters(a[1..], snake).value) + ParseFilters(b, snake).value;
      }
    }
  }

  /** One entry yields the clause `Classify` gives it, nothing for an unknown suffix, or the 400. */
  lemma ParseFiltersSingle(e: (string, Value), snake: string -> string)
    ensures ParseFilters([e], snake) ==
      match Classify(e.0, e.1, snake)
      case Err(err) => Err(err)
      case Ok(None) => Ok([])
      case Ok(Some(c)) => Ok([c])
  {
    assert [e][1..] == [];
    assert ParseFilters([e][1..], snake) == Ok([]);
    match Classify(e.0, e.1, snake)
    case Err(err) =>
    case Ok(None) =>
    case Ok(Some(c)) =>
      assert [c] + [] == [c];
  }

  /** Every entry's clause is in the list. */
  lemma {:induction false} ParseFiltersKeeps(entries: Fields, snake: string -> string, j: nat, c: Clause)
    requires j < |entries|
    requires Classify(entries[j].0, entries[j].1, snake) == Ok(Some(c))
    requires ParseFilters(entries, snake).Ok?
    ensures c in ParseFilters(entries, snake).value
    decreases |entries|
  {
    if j > 0 {
      assert entries[1..][j - 1] == entries[j];
      ParseFiltersKeeps(entries[1..], snake, j - 1, c);
    }
  }

  /** A two-part entry `a.like`, `a.not` or `a.or` yields its clause on the snake_case name of `a`. */
  lemma ParseFiltersKeepsTwoParts(entries: Fields, snake: string -> string, j: nat, a: string, b: string)
    requires j < |entries| && entries[j].0 == a + "." + b
    requires '.' !in a && '.' !in b && SuffixKind(b).Some?
    requires ParseFilters(entries, snake).Ok?
    ensures Clause(snake(a), entries[j].1, SuffixKind(b).value) in ParseFilters(entries, snake).value
  {
    ClassifyTwoParts(a, b, entries[j].1, snake);
    ParseFiltersKeeps(entries, snake, j, Clause(snake(a), entries[j].1, SuffixKind(b).value));
  }

  /** Conversely, every clause in the list is the clause of some entry. */
  lemma {:induction false} ParseFiltersFrom(entries: Fields, snake: string -> string, k: nat)
    requires ParseFilters(entries, snake).Ok? && k < |ParseFilters(entries, snake).value|
    ensures exists j :: 0 <= j < |entries| && Classify(entries[j].0, entries[j].1, snake) == Ok(Some(ParseFilters(entries, snake).value[k]))
    decreases |entries|
  {
    var head := Classify(entries[0].0, entries[0].1, snake);
    var rest := ParseFilters(entries[1..], snake).value;
    var h := if head.value.Some? then [head.value.value] else [];
    assert ParseFilters(entries, snake).value == h + rest;
    if k < |h| {
      assert Classify(entries[0].0, entries[0].1, snake) == Ok(Some(ParseFilters(entries, snake).value[k]));
    } else {
      ParseFiltersFrom(entries[1..], snake, k - |h|);
      var j :| 0 <= j < |entries[1..]| &&
        Classify(entries[1..][j].0, entries[1..][j].1, snake) == Ok(Some(rest[k - |h|]));
      assert entries[1..][j] == entries[j + 1];
      assert Classify(entries[j + 1].0, entries[j + 1].1, snake) == Ok(Some(ParseFilters(entries, snake).value[k]));
    }
  }

  /** `date` with its default. */
  function DateColumn(q: Fields): Value {
    if Get(q, "date").Undefined? then Str("created") else Get(q, "date")
  }

  predicate DateOnlyLast(cs: seq<Clause>) {
    forall i :: 0 <= i < |cs| - 1 ==> cs[i].kind != Date
  }

  /** The filter clauses of a request query, with the date range appended when both bounds are truthy. */
  function Clauses(q: Fields, snake: string -> string): (r: Result<seq<Clause>, Error>)
    ensures r.Err? <==> ParseFilters(FilterEntries(q), snake).Err?
    ensures r.Ok? ==> DateOnlyLast(r.value)
    ensures r.Ok? ==> (|r.value| > 0 && r.value[|r.value| - 1].kind == Date <==>
                       Truthy(Get(q, "sdate")) && Truthy(Get(q, "edate")))
  {
    var cs :- ParseFilters(FilterEntries(q), snake);
    if Truthy(Get(q, "sdate")) && Truthy(Get(q, "edate")) then
      Ok(cs + [Clause(ToText(DateColumn(q)), Null, Date)])
    else
      Ok(cs)
  }

  /** Every clause parsed from the filter entries is among the query's clauses. */
  lemma ClausesKeepParsed(q: Fields, snake: string -> string)
    requires Clauses(q, snake).Ok?
    ensures forall c :: c in ParseFilters(FilterEntries(q), snake).value ==> c in Clauses(q, snake).value
  {
  }

  /** A plain, non-reserved entry of the query always becomes its equality clause. */
  lemma ClausesKeepMatch(q: Fields, snake: string -> string, k: string, v: Value)
    requires (k, v) in q && k !in Reserved && '.' !in k
    requires Clauses(q, snake).Ok?
    ensures Clause(snake(k), v, Match) in Clauses(q, snake).value
  {
    FilterEntriesExact(q);
    var e := FilterEntries(q);
    assert (k, v) in e;
    var i :| 0 <= i < |e| && e[i] == (k, v);
    CountCharAbsent(k, '.');
    ParseFiltersKeepsMatch(e, snake, i);
    ClausesKeepParsed(q, snake);
  }

  // ---------------------------------------------------------------------------
  // Rendering with two or more clauses
  // ---------------------------------------------------------------------------

  /** `key BETWEEN sdate AND edate`, both bounds interpolated into the text. */
  function Between(key: string, sdate: Value, edate: Value): Text {
    [Lit(key + " BETWEEN " + ToText(sdate) + " AND " + ToText(edate))]
  }

  /** The condition pushed for the clause at position `i`. */
  function Condition(c: Clause, i: nat, sdate: Value, edate: Value): Text {
    match c.kind
    case Match => [Lit(c.key + " = "), Ph(i + 1)]
    case Or => [Lit(c.key + " = "), Ph(i + 1)]
    case Like => [Lit(c.key + " LIKE "), Ph(i + 1)]
    case Not => [Lit(c.key + " != %"), Ph(i + 1), Lit("%")]
    case Date => Between(c.key, sdate, edate)
  }

  lemma ConditionPlaceholders(c: Clause, i: nat, sdate: Value, edate: Value)
    ensures PiecePlaceholders([Condition(c, i, sdate, edate)]) == if c.kind == Date then [] else [i + 1]
  {
    OnePiecePlaceholders(Condition(c, i, sdate, edate));
    match c.kind
    case Match => LitPhPlaceholders(c.key + " = ", i + 1, "");
    case Or => LitPhPlaceholders(c.key + " = ", i + 1, "");
    case Like => LitPhPlaceholders(c.key + " LIKE ", i + 1, "");
    case Not => LitPhPlaceholders(c.key + " != %", i + 1, "%");
    case Date => LitPhPlaceholders(c.key + " BETWEEN " + ToText(sdate) + " AND " + ToText(edate), 0, "");
  }

  /** The connectives pushed before the clause at position `i`. */
  function Connectives(c: Clause, i: nat): seq<Text> {
    if i == 0 then [[Lit("WHERE")]] + (if c.kind == Or then [[Lit("OR")]] else [])
    else [[Lit("AND")]]
  }

  /** The bound value of a non-date clause: `like` values are wrapped in `%`. */
  function Param(c: Clause): Value {
    if c.kind == Like then Str("%" + ToText(c.value) + "%") else c.value
  }

  /** The pieces the multi-clause `forEach` pushes onto `queryArray`. */
  function MultiWhere(cs: seq<Clause>, sdate: Value, edate: Value): seq<Text>
    decreases |cs|
  {
    if |cs| == 0 then []
    else
      var n := |cs| - 1;
      MultiWhere(cs[..n], sdate, edate) + Connectives(cs[n], n) + [Condition(cs[n], n, sdate, edate)]
  }

  /** The values the multi-clause `forEach` pushes onto `params`. */
  function MultiParams(cs: seq<Clause>): seq<Value>
    decreases |cs|
  {
    if |cs| == 0 then []
    else
      var n := |cs| - 1;
      MultiParams(cs[..n]) + (if cs[n].kind != Date then [Param(cs[n])] else [])
  }

  predicate NoDate(cs: seq<Clause>) {
    forall i :: 0 <= i < |cs| ==> cs[i].kind != Date
  }

  /** `WHERE`, `OR` and `AND` carry no placeholder. */
  lemma ConnectivesPlaceholders(c: Clause, i: nat)
    ensures PiecePlaceholders(Connectives(c, i)) == []
  {
    var conn := Connectives(c, i);
    if i == 0 && c.kind == Or {
      assert conn == [[Lit("WHERE")], [Lit("OR")]];
      assert PiecePlaceholders(conn[1..]) == Placeholders([Lit("OR")]) + PiecePlaceholders([]);
    } else {
      assert PiecePlaceholders(conn[1..]) == [];
    }
  }

  /** The placeholders of the WHERE pieces grow by the last clause's own. */
  lemma MultiWherePlaceholdersStep(cs: seq<Clause>, sdate: Value, edate: Value)
    requires |cs| > 0
    ensures var n := |cs| - 1;
      PiecePlaceholders(MultiWhere(cs, sdate, edate)) ==
      PiecePlaceholders(MultiWhere(cs[..n], sdate, edate)) + (if cs[n].kind == Date then [] else [n + 1])
  {
    var n := |cs| - 1;
    var wp := MultiWhere(cs[..n], sdate, edate);
    var conn := Connectives(cs[n], n);
    var cond := [Condition(cs[n], n, sdate, edate)];
    PiecePlaceholdersAppend(wp, conn);
    PiecePlaceholdersAppend(wp + conn, cond);
    ConnectivesPlaceholders(cs[n], n);
    ConditionPlaceholders(cs[n], n, sdate, edate);
  }

  /**
   * Without a date clause, clause i is bound to placeholder $(i+1), and that
   * placeholder's value is the clause's parameter: the placeholders of the
   * rendered WHERE are exactly $1..$|params|.
   */
  lemma {:induction false} MultiBindingNoDate(cs: seq<Clause>, sdate: Value, edate: Value)
    requires NoDate(cs)
    ensures PiecePlaceholders(MultiWhere(cs, sdate, edate)) == Numbered(1, |cs|)
    ensures |MultiParams(cs)| == |cs|
    ensures forall i :: 0 <= i < |cs| ==> MultiParams(cs)[i] == Param(cs[i])
    decreases |cs|
  {
    if |cs| > 0 {
      var n := |cs| - 1;
      var p := cs[..n];
      assert NoDate(p) by {
        forall i | 0 <= i < |p| ensures p[i].kind != Date {
          assert p[i] == cs[i];
        }
      }
      MultiBindingNoDate(p, sdate, edate);
      MultiWherePlaceholdersStep(cs, sdate, edate);
      assert cs[n].kind != Date;
      NumberedSplit(1, n, 1);
      assert MultiParams(cs) == MultiParams(p) + [Param(cs[n])];
      forall i | 0 <= i < |cs| ensures MultiParams(cs)[i] == Param(cs[i]) {
        if i < n {
          assert p[i] == cs[i];
        }
      }
    } else {
      assert Numbered(1, 0) == [];
    }
  }

  /**
   * With a date clause last, it renders without a placeholder and binds no
   * value, so the placeholders are still exactly $1..$|params|.
   */
  lemma MultiBinding(cs: seq<Clause>, sdate: Value, edate: Value)
    requires DateOnlyLast(cs)
    ensures PiecePlaceholders(MultiWhere(cs, sdate, edate)) == Numbered(1, |MultiParams(cs)|)
    ensures forall i :: 0 <= i < |cs| && cs[i].kind != Date ==> i < |MultiParams(cs)| && MultiParams(cs)[i] == Param(cs[i])
  {
    if |cs| > 0 && cs[|cs| - 1].kind == Date {
      var n := |cs| - 1;
      var p := cs[..n];
      assert NoDate(p) by {
        forall i | 0 <= i < |p| ensures p[i].kind != Date {
          assert p[i] == cs[i];
        }
      }
      MultiBindingNoDate(p, sdate, edate);
      assert MultiParams(cs) == MultiParams(p);
      forall i | 0 <= i < |cs| && cs[i].kind != Date
        ensures i < |MultiParams(cs)| && MultiParams(cs)[i] == Param(cs[i])
      {
        assert p[i] == cs[i];
      }
      MultiWherePlaceholdersStep(cs, sdate, edate);
    } else {
      MultiBindingNoDate(cs, sdate, edate);
    }
  }

  /**
   * Layout of the multi-clause WHERE: `WHERE` first, then `OR` only when the
   * FIRST clause has kind `or`, then clause 0; every later clause is preceded
   * by `AND`, whatever its kind.
   */
  lemma MultiWhereLayout(cs: seq<Clause>, sdate: Value, edate: Value)
    requires |cs| >= 1
    ensures var o := if cs[0].kind == Or then 1 else 0;
      var w := MultiWhere(cs, sdate, edate);
      && |w| == 2 * |cs| + o
      && w[0] == [Lit("WHERE")]
      && (o == 1 ==> w[1] == [Lit("OR")])
      && w[1 + o] == Condition(cs[0], 0, sdate, edate)
      && (forall i :: 1 <= i < |cs| ==> w[2 * i + o] == [Lit("AND")] && w[2 * i + 1 + o] == Condition(cs[i], i, sdate, edate))
  {
    MultiWhereAnd(cs, sdate, edate);
    AndLayoutConditions(MultiWhere(cs, sdate, edate), cs, sdate, edate);
  }

  /** The `AND` layout spelled out clause by clause. */
  lemma AndLayoutConditions(w: seq<Text>, cs: seq<Clause>, sdate: Value, edate: Value)
    requires |cs| >= 1
    requires AndLayout(w, Conds(cs, sdate, edate), if cs[0].kind == Or then 1 else 0)
    ensures var o := if cs[0].kind == Or then 1 else 0;
      && |w| == 2 * |cs| + o
      && w[1 + o] == Condition(cs[0], 0, sdate, edate)
      && (forall i :: 1 <= i < |cs| ==> w[2 * i + o] == [Lit("AND")] && w[2 * i + 1 + o] == Condition(cs[i], i, sdate, edate))
  {
    var o := if cs[0].kind == Or then 1 else 0;
    assert w[1 + o] == Conds(cs, sdate, edate)[0];
    forall i | 1 <= i < |cs|
      ensures w[2 * i + o] == [Lit("AND")] && w[2 * i + 1 + o] == Condition(cs[i], i, sdate, edate)
    {
      assert w[2 * i + 1 + o] == Conds(cs, sdate, edate)[i];
    }
  }

  /** The rendered conditions, clause by clause. */
  function Conds(cs: seq<Clause>, sdate: Value, edate: Value): (r: seq<Text>)
    ensures |r| == |cs|
  {
    seq(|cs|, i requires 0 <= i < |cs| => Condition(cs[i], i, sdate, edate))
  }

  /** After the opening pieces, every later condition follows an `AND`. */
  ghost predicate AndLayout(w: seq<Text>, conds: seq<Text>, o: nat) {
    && |conds| >= 1
    && |w| == 2 * |conds| + o
    && w[1 + o] == conds[0]
    && forall i :: 1 <= i < |conds| ==> w[2 * i + o] == [Lit("AND")] && w[2 * i + 1 + o] == conds[i]
  }

  lemma AndLayoutSnoc(wp: seq<Text>, conds: seq<Text>, o: nat, c: Text)
    requires AndLayout(wp, conds, o)
    ensures AndLayout(wp + [[Lit("AND")]] + [c], conds + [c], o)
  {
    var w, cs := wp + [[Lit("AND")]] + [c], conds + [c];
    forall i | 1 <= i < |cs| ensures w[2 * i + o] == [Lit("AND")] && w[2 * i + 1 + o] == cs[i] {
      if i < |conds| {
        assert w[2 * i + o] == wp[2 * i + o] && w[2 * i + 1 + o] == wp[2 * i + 1 + o];
      }
    }
  }

  /** What the WHERE pieces of at least one clause look like. */
  ghost predicate MultiWhereShape(cs: seq<Clause>, sdate: Value, edate: Value)
    requires |cs| >= 1
  {
    var o := if cs[0].kind == Or then 1 else 0;
    var w := MultiWhere(cs, sdate, edate);
    && AndLayout(w, Conds(cs, sdate, edate), o)
    && w[0] == [Lit("WHERE")]
    && (o == 1 ==> w[1] == [Lit("OR")])
  }

  lemma MultiWhereOne(cs: seq<Clause>, sdate: Value, edate: Value)
    requires |cs| == 1
    ensures MultiWhereShape(cs, sdate, edate)
  {
    assert cs[..0] == [];
    assert MultiWhere(cs, sdate, edate) == [] + Connectives(cs[0], 0) + [Condition(cs[0], 0, sdate, edate)];
    assert Conds(cs, sdate, edate)[0] == Condition(cs[0], 0, sdate, edate);
  }

  lemma MultiWhereStep(cs: seq<Clause>, sdate: Value, edate: Value)
    requires |cs| >= 2
    requires MultiWhereShape(cs[..|cs| - 1], sdate, edate)
    ensures MultiWhereShape(cs, sdate, edate)
  {
    var n := |cs| - 1;
    var p := cs[..n];
    var o := if cs[0].kind == Or then 1 else 0;
    var wp := MultiWhere(p, sdate, edate);
    assert p[0] == cs[0];
    var c := Condition(cs[n], n, sdate, edate);
    assert MultiWhere(cs, sdate, edate) == wp + [[Lit("AND")]] + [c];
    assert Conds(cs, sdate, edate) == Conds(p, sdate, edate) + [c] by {
      forall i | 0 <= i < n ensures Conds(cs, sdate, edate)[i] == Conds(p, sdate, edate)[i] {
        assert p[i] == cs[i];
      }
    }
    AndLayoutSnoc(wp, Conds(p, sdate, edate), o, c);
  }

  lemma {:induction false} MultiWhereAnd(cs: seq<Clause>, sdate: Value, edate: Value)
    requires |cs| >= 1
    ensures MultiWhereShape(cs, sdate, edate)
    decreases |cs|
  {
    if |cs| == 1 {
      MultiWhereOne(cs, sdate, edate);
    } else {
      MultiWhereAnd(cs[..|cs| - 1], sdate, edate);
      MultiWhereStep(cs, sdate, edate);
    }
  }
}
