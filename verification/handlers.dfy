/**
 * Controller logic shared by the carts, orders and users handlers: scoping a
 * list query to the caller, the list-read plan built on the select and count
 * builders, and the "copy a body field into the update when it is defined"
 * assembly.
 */
module Handlers {
  import opened Wrappers
  import opened Js
  import opened SqlText
  import opened Errors
  import opened Filters
  import opened GetQuery
  import opened GetTotalQuery
  import opened Transaction
  import UpdateQuery

  /** `req.user`, as decoded from the access token. */
  datatype Caller = Caller(id: Value, role: Value)

  /** `{ message }` */
  function Message(text: string): Value {
    Obj([("message", Str(text))])
  }

  // ---------------------------------------------------------------------------
  // Scoping a list query to the caller
  // ---------------------------------------------------------------------------

  /** `if (role !== 'admin') Object.assign(req.query, { userId: id })` */
  function ScopedQuery(caller: Caller, q: Fields): (r: Fields)
    ensures caller.role != Str("admin") ==> Get(r, "userId") == caller.id
    ensures caller.role == Str("admin") ==> r == q
    ensures forall k :: k != "userId" ==> Get(r, k) == Get(q, k)
  {
    if caller.role != Str("admin") then Assign(q, "userId", caller.id) else q
  }

  lemma UserIdPlain()
    ensures "userId" !in Reserved && '.' !in "userId"
  {
    assert "userId"[0] == 'u';
  }

  /**
   * For a caller who is not an admin, a query that builds always carries
   * the equality clause on the snake_case name of `userId`, bound to the
   * caller's id, whatever `userId` the client sent. This is presence only:
   * the date bounds, the date column, the filter key names and the paging
   * values are written into the SQL text as sent, so they can change what
   * the WHERE means.
   */
  lemma ScopedQueryFilters(caller: Caller, q: Fields, snake: string -> string)
    requires caller.role != Str("admin")
    requires Clauses(ScopedQuery(caller, q), snake).Ok?
    ensures Clause(snake("userId"), caller.id, Match) in Clauses(ScopedQuery(caller, q), snake).value
  {
    var r := ScopedQuery(caller, q);
    AssignHolds(q, "userId", caller.id);
    assert ("userId", caller.id) in r;
    UserIdPlain();
    ClausesKeepMatch(r, snake, "userId", caller.id);
  }

  // ---------------------------------------------------------------------------
  // The list-read plan
  // ---------------------------------------------------------------------------

  /** `{ data: { rows, total } }` */
  function ListBody(rows: Value, total: int): Value {
    Obj([("data", Obj([("rows", rows), ("total", Num(total))]))])
  }

  /**
   * The list handlers (`getCart`, `getOrder`, `getUsers`): build the select
   * and the count; a builder that failed has already called `next` itself,
   * and the handler then throws a 500. Otherwise both statements run in one
   * transaction. `rows` is the response's row list and `total` the count the
   * database returned.
   */
  function ReadPlan(q: Fields, table: string, snake: string -> string, rows: Value, total: int): (steps: seq<Step>) {
    match BuildGetQuery(q, table, snake)
    case Err(e) => [Forward(e), Throw(QueryGenerationFailed)]
    case Ok(s) =>
      match BuildGetTotalQuery(q, table, snake)
      case Err(e) => [Forward(e), Throw(QueryGenerationFailed)]
      case Ok(c) => Transactional([Stmt(s.Query(), s.params), Stmt(c.Query(), c.totalParams)], 201, ListBody(rows, total))
  }

  /**
   * When a builder fails, `next` is called twice: once by the builder with
   * its own error, then by the handler with the 500, after a ROLLBACK
   * without BEGIN.
   */
  lemma ReadPlanBuilderFailure(q: Fields, table: string, snake: string -> string, rows: Value, total: int, fails: set<nat>)
    requires BuildGetQuery(q, table, snake).Err? || BuildGetTotalQuery(q, table, snake).Err?
    ensures var e := if BuildGetQuery(q, table, snake).Err? then BuildGetQuery(q, table, snake).error
                     else BuildGetTotalQuery(q, table, snake).error;
      Handle(ReadPlan(q, table, snake, rows, total), fails) ==
        [NextCalled(e), Sent(Rollback), NextCalled(QueryGenerationFailed), Released]
  {
    var e := if BuildGetQuery(q, table, snake).Err? then BuildGetQuery(q, table, snake).error
             else BuildGetTotalQuery(q, table, snake).error;
    assert ReadPlan(q, table, snake, rows, total) == [Forward(e), Throw(QueryGenerationFailed)];
    ForwardThenThrow(e, QueryGenerationFailed, fails);
  }

  /**
   * When both builders succeed, the plan is one transaction running the
   * select and then the count, and each statement's placeholders are
   * exactly $1..$n for its n parameters.
   */
  lemma ReadPlanStatements(q: Fields, table: string, snake: string -> string, rows: Value, total: int)
    requires BuildGetQuery(q, table, snake).Ok? && BuildGetTotalQuery(q, table, snake).Ok?
    ensures var s := BuildGetQuery(q, table, snake).value;
      var c := BuildGetTotalQuery(q, table, snake).value;
      && ReadPlan(q, table, snake, rows, total) ==
           Transactional([Stmt(s.Query(), s.params), Stmt(c.Query(), c.totalParams)], 201, ListBody(rows, total))
      && Placeholders(s.Query()) == Numbered(1, |s.params|)
      && Placeholders(c.Query()) == Numbered(1, |c.totalParams|)
  {
    SelectPlaceholders(q, table, snake);
    TotalPlaceholders(q, table, snake);
  }

  /**
   * A list read commits exactly when both builders succeed and none of
   * BEGIN, the select, the count and COMMIT fails, and it answers with the
   * rows and the total exactly when it commits.
   */
  lemma ReadPlanOutcome(q: Fields, table: string, snake: string -> string, rows: Value, total: int, fails: set<nat>)
    ensures var t := Handle(ReadPlan(q, table, snake, rows, total), fails);
      && (Committed(t) <==>
            BuildGetQuery(q, table, snake).Ok? && BuildGetTotalQuery(q, table, snake).Ok? && !FailsBefore(fails, 0, 4))
      && (Committed(t) <==> Responded(201, ListBody(rows, total)) in t)
  {
    if BuildGetQuery(q, table, snake).Ok? && BuildGetTotalQuery(q, table, snake).Ok? {
      var s := BuildGetQuery(q, table, snake).value;
      var c := BuildGetTotalQuery(q, table, snake).value;
      var stmts := [Stmt(s.Query(), s.params), Stmt(c.Query(), c.totalParams)];
      assert ReadPlan(q, table, snake, rows, total) == Transactional(stmts, 201, ListBody(rows, total));
      TransactionalAloneOutcome(stmts, 201, ListBody(rows, total), fails);
    } else {
      ReadPlanBuilderFailure(q, table, snake, rows, total, fails);
    }
  }

  // ---------------------------------------------------------------------------
  // Copying defined body fields into an update
  // ---------------------------------------------------------------------------

  /** The body keys of a field list. */
  function SpecKeys(spec: seq<(string, string)>): (ks: seq<string>)
    ensures |ks| == |spec|
    ensures forall i :: 0 <= i < |spec| ==> ks[i] == spec[i].0
  {
    seq(|spec|, i requires 0 <= i < |spec| => spec[i].0)
  }

  predicate DistinctSpec(spec: seq<(string, string)>) {
    forall i, j :: 0 <= i < j < |spec| ==> spec[i].0 != spec[j].0
  }

  /**
   * For each `(key, column)` in order: `if (body.key !== undefined) {
   * Object.assign(update.data, { key: body.key }); Object.assign(update.fieldMap, { key: column }) }`.
   */
  function PickDefined(body: Fields, spec: seq<(string, string)>): (r: (Fields, map<string, string>))
    decreases |spec|
  {
    if |spec| == 0 then ([], map[])
    else
      var (data, fieldMap) := PickDefined(body, spec[..|spec| - 1]);
      var (k, column) := spec[|spec| - 1];
      if Get(body, k) != Undefined then (Assign(data, k, Get(body, k)), fieldMap[k := column])
      else (data, fieldMap)
  }

  /** The update a handler builds from the listed fields, with `id` as the only condition. */
  function ListedUpdate(table: string, body: Fields, spec: seq<(string, string)>, id: Value): Result<UpdateQuery.UpdateStatement, Error> {
    UpdateQuery.BuildUpdateQuery(table, PickDefined(body, spec).0, [("id", id)], PickDefined(body, spec).1)
  }

  /** The reference: the listed keys whose body value is defined, with that value, in list order. */
  function Picked(body: Fields, spec: seq<(string, string)>): (r: Fields)
    ensures |r| <= |spec|
    ensures forall i :: 0 <= i < |r| ==> r[i].0 in SpecKeys(spec) && r[i].1 == Get(body, r[i].0) && r[i].1 != Undefined
    decreases |spec|
  {
    if |spec| == 0 then []
    else
      var p := spec[..|spec| - 1];
      var k := spec[|spec| - 1].0;
      assert forall x :: x in SpecKeys(p) ==> x in SpecKeys(spec) by {
        assert SpecKeys(p) == SpecKeys(spec)[..|spec| - 1];
      }
      Picked(body, p) + (if Get(body, k) != Undefined then [(k, Get(body, k))] else [])
  }

  /** A key of the picked data has a defined body value. */
  lemma PickedKeyDefined(body: Fields, spec: seq<(string, string)>, k: string)
    requires HasKey(Picked(body, spec), k)
    ensures Get(body, k) != Undefined
  {
    var r := Picked(body, spec);
    var j :| 0 <= j < |r| && Keys(r)[j] == k;
    assert r[j].0 == k;
  }

  /** A listed key with a defined body value is picked. */
  lemma {:induction false} PickedDefinedKey(body: Fields, spec: seq<(string, string)>, i: nat)
    requires i < |spec| && Get(body, spec[i].0) != Undefined
    ensures HasKey(Picked(body, spec), spec[i].0)
    decreases |spec|
  {
    var k := spec[i].0;
    var p := spec[..|spec| - 1];
    var last := spec[|spec| - 1].0;
    var tail := if Get(body, last) != Undefined then [(last, Get(body, last))] else [];
    assert Picked(body, spec) == Picked(body, p) + tail;
    HasKeyAppend(Picked(body, p), tail, k);
    if i == |spec| - 1 {
      assert Keys(tail) == [k];
    } else {
      assert p[i] == spec[i];
      PickedDefinedKey(body, p, i);
    }
  }

  /** A listed key is in the picked data exactly when its body value is defined. */
  lemma PickedHasKey(body: Fields, spec: seq<(string, string)>, i: nat)
    requires i < |spec|
    ensures HasKey(Picked(body, spec), spec[i].0) <==> Get(body, spec[i].0) != Undefined
  {
    if HasKey(Picked(body, spec), spec[i].0) {
      PickedKeyDefined(body, spec, spec[i].0);
    }
    if Get(body, spec[i].0) != Undefined {
      PickedDefinedKey(body, spec, i);
    }
  }

  /** With distinct listed keys, every `Object.assign` adds a new key, so the handler's data is the reference. */
  lemma {:induction false} PickDefinedData(body: Fields, spec: seq<(string, string)>)
    requires DistinctSpec(spec)
    ensures PickDefined(body, spec).0 == Picked(body, spec)
    decreases |spec|
  {
    if |spec| > 0 {
      var p := spec[..|spec| - 1];
      var k := spec[|spec| - 1].0;
      assert forall i :: 0 <= i < |p| ==> p[i] == spec[i];
      PickDefinedData(body, p);
      var d0 := Picked(body, p);
      assert !HasKey(d0, k) by {
        forall j | 0 <= j < |d0| ensures Keys(d0)[j] != k {
          var x := d0[j].0;
          assert x in SpecKeys(p);
          var m :| 0 <= m < |p| && SpecKeys(p)[m] == x;
          assert spec[m].0 != spec[|spec| - 1].0;
        }
      }
    }
  }

  /** The field map maps exactly the picked keys, each to its listed column. */
  lemma PickDefinedFieldMap(body: Fields, spec: seq<(string, string)>)
    requires DistinctSpec(spec)
    ensures var fieldMap := PickDefined(body, spec).1;
      && (forall i :: 0 <= i < |spec| ==> (spec[i].0 in fieldMap <==> Get(body, spec[i].0) != Undefined))
      && (forall i :: 0 <= i < |spec| && spec[i].0 in fieldMap ==> fieldMap[spec[i].0] == spec[i].1)
      && (forall k :: k in fieldMap ==> k in SpecKeys(spec))
  {
    FieldMapInduction(body, spec);
  }

  /** `PickDefined` with one more listed key does one more step. */
  lemma PickDefinedSnoc(body: Fields, spec: seq<(string, string)>)
    requires |spec| > 0
    ensures var p := spec[..|spec| - 1];
      var (k, column) := spec[|spec| - 1];
      PickDefined(body, spec).1 == if Get(body, k) != Undefined then PickDefined(body, p).1[k := column] else PickDefined(body, p).1
  {
  }

  lemma {:induction false} FieldMapInduction(body: Fields, spec: seq<(string, string)>)
    requires DistinctSpec(spec)
    ensures FieldMapOf(body, spec, PickDefined(body, spec).1)
    decreases |spec|
  {
    if |spec| > 0 {
      var p := spec[..|spec| - 1];
      var (k, column) := spec[|spec| - 1];
      assert forall i :: 0 <= i < |p| ==> p[i] == spec[i];
      assert DistinctSpec(p);
      FieldMapInduction(body, p);
      assert k !in SpecKeys(p) by {
        forall m | 0 <= m < |p| ensures SpecKeys(p)[m] != k {
          assert spec[m].0 != k;
        }
      }
      PickDefinedSnoc(body, spec);
      FieldMapSnoc(body, spec, PickDefined(body, p).1);
    }
  }

  /** What `PickDefined` promises about its field map. */
  ghost predicate FieldMapOf(body: Fields, spec: seq<(string, string)>, fieldMap: map<string, string>) {
    && (forall i :: 0 <= i < |spec| ==> (spec[i].0 in fieldMap <==> Get(body, spec[i].0) != Undefined))
    && (forall i :: 0 <= i < |spec| && spec[i].0 in fieldMap ==> fieldMap[spec[i].0] == spec[i].1)
    && (forall k :: k in fieldMap ==> k in SpecKeys(spec))
  }

  /** One more listed key, new to the list, keeps the promise. */
  lemma FieldMapSnoc(body: Fields, spec: seq<(string, string)>, fieldMap: map<string, string>)
    requires |spec| > 0
    requires FieldMapOf(body, spec[..|spec| - 1], fieldMap)
    requires spec[|spec| - 1].0 !in SpecKeys(spec[..|spec| - 1])
    ensures var (k, column) := spec[|spec| - 1];
      FieldMapOf(body, spec, if Get(body, k) != Undefined then fieldMap[k := column] else fieldMap)
  {
    var p := spec[..|spec| - 1];
    var (k, column) := spec[|spec| - 1];
    var m := if Get(body, k) != Undefined then fieldMap[k := column] else fieldMap;
    assert k !in fieldMap;
    assert SpecKeys(spec) == SpecKeys(p) + [k];
    forall i | 0 <= i < |spec|
      ensures (spec[i].0 in m <==> Get(body, spec[i].0) != Undefined)
      ensures spec[i].0 in m ==> m[spec[i].0] == spec[i].1
    {
      if i < |p| {
        assert spec[i] == p[i];
        assert p[i].0 != k by {
          assert SpecKeys(p)[i] == p[i].0;
        }
      }
    }
  }

  /**
   * The data handed to the update builder: every picked entry is defined,
   * so the builder keeps all of them and its SET list follows the listed
   * order of the defined keys.
   */
  lemma {:induction false} PickedAllDefined(data: Fields)
    requires forall i :: 0 <= i < |data| ==> data[i].1 != Undefined
    ensures UpdateQuery.Defined(data) == data
    decreases |data|
  {
    if |data| > 0 {
      assert forall i :: 0 <= i < |data[1..]| ==> data[1..][i] == data[i + 1];
      PickedAllDefined(data[1..]);
    }
  }

  /** The picked data is empty exactly when no listed key has a defined body value. */
  lemma PickedEmpty(body: Fields, spec: seq<(string, string)>)
    ensures Picked(body, spec) == [] <==> forall i :: 0 <= i < |spec| ==> Get(body, spec[i].0) == Undefined
  {
    var r := Picked(body, spec);
    forall i | 0 <= i < |spec| {
      PickedHasKey(body, spec, i);
    }
    if r != [] {
      assert HasKey(r, r[0].0) by {
        assert Keys(r)[0] == r[0].0;
      }
      var j :| 0 <= j < |spec| && SpecKeys(spec)[j] == r[0].0;
    }
  }

  /** The update of fully defined data with the single condition `id`. */
  lemma DefinedUpdate(table: string, data: Fields, id: Value, fieldMap: map<string, string>)
    requires forall i :: 0 <= i < |data| ==> data[i].1 != Undefined
    requires "id" !in fieldMap
    ensures var r := UpdateQuery.BuildUpdateQuery(table, data, [("id", id)], fieldMap);
      && (r.Err? <==> data == [])
      && (r.Ok? ==>
            && |r.value.setFields| == |data|
            && (forall i :: 0 <= i < |data| ==>
                  r.value.values[i] == data[i].1 &&
                  r.value.setFields[i] == UpdateQuery.Assignment(UpdateQuery.Column(data[i].0, fieldMap), i + 1))
            && r.value.whereClauses == [UpdateQuery.Assignment("id", |data| + 1)]
            && r.value.values[|data|] == id)
  {
    PickedAllDefined(data);
    var r := UpdateQuery.BuildUpdateQuery(table, data, [("id", id)], fieldMap);
    if data != [] {
      var u := UpdateQuery.Statement(table, data, [("id", id)], fieldMap);
      assert r == Ok(u);
      assert UpdateQuery.Column("id", fieldMap) == "id";
      assert u.whereClauses == [UpdateQuery.Assignment("id", |data| + 1)];
    }
  }

  /** The column listed for `key`: that of its first entry, or the key itself when unlisted. */
  function ColumnOf(spec: seq<(string, string)>, key: string): string {
    if |spec| == 0 then key
    else if spec[0].0 == key then spec[0].1
    else ColumnOf(spec[1..], key)
  }

  /** With distinct keys, every listed key has its own listed column. */
  lemma {:induction false} ColumnOfListed(spec: seq<(string, string)>, j: nat)
    requires DistinctSpec(spec) && j < |spec|
    ensures ColumnOf(spec, spec[j].0) == spec[j].1
    decreases |spec|
  {
    if j > 0 {
      assert spec[0].0 != spec[j].0;
      assert DistinctSpec(spec[1..]) by {
        forall a, b | 0 <= a < b < |spec[1..]| ensures spec[1..][a].0 != spec[1..][b].0 {
          assert spec[1..][a] == spec[a + 1] && spec[1..][b] == spec[b + 1];
        }
      }
      ColumnOfListed(spec[1..], j - 1);
      assert spec[1..][j - 1] == spec[j];
    }
  }

  /** Each picked key is written to its listed column. */
  lemma PickedColumns(body: Fields, spec: seq<(string, string)>)
    requires DistinctSpec(spec)
    ensures var fieldMap := PickDefined(body, spec).1;
      var kept := Picked(body, spec);
      forall i :: 0 <= i < |kept| ==> UpdateQuery.Column(kept[i].0, fieldMap) == ColumnOf(spec, kept[i].0)
  {
    var fieldMap := PickDefined(body, spec).1;
    var kept := Picked(body, spec);
    PickDefinedFieldMap(body, spec);
    forall i | 0 <= i < |kept|
      ensures UpdateQuery.Column(kept[i].0, fieldMap) == ColumnOf(spec, kept[i].0)
    {
      var j :| 0 <= j < |spec| && SpecKeys(spec)[j] == kept[i].0;
      PickedHasKey(body, spec, j);
      assert HasKey(kept, kept[i].0) by {
        assert Keys(kept)[i] == kept[i].0;
      }
      ColumnOfListed(spec, j);
    }
  }

  /**
   * The update a handler builds from the listed fields and `where = { id }`:
   * it is rejected exactly when no listed field is defined; otherwise its
   * SET list is the defined fields in list order, each written to its listed
   * column and bound to its body value, and the only condition is
   * `id = $k+1`, bound to `id`.
   */
  lemma PickedUpdate(table: string, body: Fields, spec: seq<(string, string)>, id: Value)
    requires DistinctSpec(spec) && "id" !in SpecKeys(spec)
    ensures var r := ListedUpdate(table, body, spec, id);
      var kept := Picked(body, spec);
      && (r.Err? <==> forall i :: 0 <= i < |spec| ==> Get(body, spec[i].0) == Undefined)
      && (r.Ok? ==>
            && |r.value.setFields| == |kept|
            && (forall i :: 0 <= i < |kept| ==>
                  && kept[i].0 != "id"
                  && r.value.values[i] == Get(body, kept[i].0)
                  && r.value.setFields[i] == UpdateQuery.Assignment(ColumnOf(spec, kept[i].0), i + 1))
            && r.value.whereClauses == [UpdateQuery.Assignment("id", |kept| + 1)]
            && r.value.values[|kept|] == id)
  {
    var kept, fieldMap := Picked(body, spec), PickDefined(body, spec).1;
    PickDefinedData(body, spec);
    assert ListedUpdate(table, body, spec, id) == UpdateQuery.BuildUpdateQuery(table, kept, [("id", id)], fieldMap);
    PickDefinedFieldMap(body, spec);
    PickedEmpty(body, spec);
    PickedColumns(body, spec);
    KeptUpdate(table, kept, fieldMap, id, spec, body);
  }

  /** The update built from picked data, stated without the picking. */
  lemma KeptUpdate(table: string, kept: Fields, fieldMap: map<string, string>, id: Value,
                   spec: seq<(string, string)>, body: Fields)
    requires "id" !in SpecKeys(spec)
    requires forall k :: k in fieldMap ==> k in SpecKeys(spec)
    requires forall i :: 0 <= i < |kept| ==>
      kept[i].0 in SpecKeys(spec) && kept[i].1 == Get(body, kept[i].0) && kept[i].1 != Undefined
    requires forall i :: 0 <= i < |kept| ==> UpdateQuery.Column(kept[i].0, fieldMap) == ColumnOf(spec, kept[i].0)
    ensures var r := UpdateQuery.BuildUpdateQuery(table, kept, [("id", id)], fieldMap);
      && (r.Err? <==> kept == [])
      && (r.Ok? ==>
            && |r.value.setFields| == |kept|
            && (forall i :: 0 <= i < |kept| ==>
                  && kept[i].0 != "id"
                  && r.value.values[i] == Get(body, kept[i].0)
                  && r.value.setFields[i] == UpdateQuery.Assignment(ColumnOf(spec, kept[i].0), i + 1))
            && r.value.whereClauses == [UpdateQuery.Assignment("id", |kept| + 1)]
            && r.value.values[|kept|] == id)
  {
    DefinedUpdate(table, kept, id, fieldMap);
  }
}
