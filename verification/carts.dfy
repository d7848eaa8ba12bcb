/**
 * The carts controller: creating a cart row for the caller, listing carts
 * scoped to the caller, changing a cart's quantity, and the bulk delete that
 * checks ownership of every requested id before deleting any of them.
 */
module Carts {
  import opened Wrappers
  import opened Js
  import opened SqlText
  import opened Errors
  import opened CaseMapper
  import opened CreateQuery
  import opened UpdateQuery
  import opened Transaction
  import opened Handlers

  // ---------------------------------------------------------------------------
  // createCart
  // ---------------------------------------------------------------------------

  /** The body with the caller's id as `userId`, overriding whatever the client sent. */
  function OwnedBody(caller: Caller, body: Fields): Fields {
    Assign(body, "userId", caller.id)
  }

  /** `createCart`: build the insert, then BEGIN, INSERT, COMMIT and answer with the camelCased rows the insert returned. */
  function CreateCartPlan(caller: Caller, body: Fields, snake: string -> string, parse: Value -> Option<Value>,
                          rows: Value): seq<Step> {
    var ins := BuildCreateQuery("carts", OwnedBody(caller, body), None, snake, parse);
    Transactional([Stmt(ins.Query(), ins.values)], 201, Obj([("data", Obj([("rows", SnakeToCamelObject(rows))]))]))
  }

  /**
   * The inserted row belongs to the caller: the `userId` column is bound to
   * the caller's id (through the insert builder's parse step), never to a
   * client-sent `userId`.
   */
  lemma CreateCartOwner(caller: Caller, body: Fields, snake: string -> string, parse: Value -> Option<Value>)
    ensures var ins := BuildCreateQuery("carts", OwnedBody(caller, body), None, snake, parse);
      exists i :: 0 <= i < |ins.columns| && ins.columns[i] == snake("userId") && ins.values[i] == ParsedOrRaw(parse, caller.id)
  {
    var b := OwnedBody(caller, body);
    var ins := BuildCreateQuery("carts", b, None, snake, parse);
    AssignHolds(body, "userId", caller.id);
    var i :| 0 <= i < |b| && b[i] == ("userId", caller.id);
    assert ins.columns[i] == snake("userId");
  }

  /** The cart is stored and the rows are returned exactly when none of BEGIN, INSERT and COMMIT fails. */
  lemma CreateCartOutcome(caller: Caller, body: Fields, snake: string -> string, parse: Value -> Option<Value>,
                          rows: Value, fails: set<nat>)
    ensures var t := Handle(CreateCartPlan(caller, body, snake, parse, rows), fails);
      && (Committed(t) <==> !FailsBefore(fails, 0, 3))
      && (Committed(t) <==> Responded(201, Obj([("data", Obj([("rows", SnakeToCamelObject(rows))]))])) in t)
  {
    var ins := BuildCreateQuery("carts", OwnedBody(caller, body), None, snake, parse);
    var stmts := [Stmt(ins.Query(), ins.values)];
    assert Transactional(stmts, 201, Obj([("data", Obj([("rows", SnakeToCamelObject(rows))]))])) ==
      CreateCartPlan(caller, body, snake, parse, rows);
    TransactionalAloneOutcome(stmts, 201, Obj([("data", Obj([("rows", SnakeToCamelObject(rows))]))]), fails);
  }

  // ---------------------------------------------------------------------------
  // getCart
  // ---------------------------------------------------------------------------

  /**
   * `getCart`: the list-read plan on `carts`, scoped to the caller unless the
   * caller is an admin. The join and the select list the handler passes
   * are not used by the select builder.
   */
  function GetCartPlan(caller: Caller, q: Fields, snake: string -> string, rows: Value, total: int): seq<Step> {
    ReadPlan(ScopedQuery(caller, q), "carts", snake, SnakeToCamelObject(rows), total)
  }

  /**
   * For a caller who is not an admin, whenever the cart list query builds
   * its clauses include the equality clause on the snake_case name of
   * `userId`, bound to the caller's id; the WHERE joins every later
   * clause to it with AND (`Filters.MultiWhereLayout`). Values written into
   * the text as sent can still change the WHERE's meaning.
   */
  lemma GetCartScoped(caller: Caller, q: Fields, snake: string -> string)
    requires caller.role != Str("admin")
    requires Filters.Clauses(ScopedQuery(caller, q), snake).Ok?
    ensures Filters.Clause(snake("userId"), caller.id, Filters.Match) in Filters.Clauses(ScopedQuery(caller, q), snake).value
  {
    ScopedQueryFilters(caller, q, snake);
  }

  // ---------------------------------------------------------------------------
  // updateCart
  // ---------------------------------------------------------------------------

  const RequiredId := HttpError(400, "Required id")

  /** The only updatable cart field. */
  const CartFields: seq<(string, string)> := [("cartQuantity", "cart_quantity")]

  /** The update `updateCart` hands to the builder. */
  function CartUpdate(body: Fields): Result<UpdateStatement, Error> {
    ListedUpdate("carts", body, CartFields, Get(body, "id"))
  }

  /** `updateCart`: a falsy `id` is rejected before BEGIN; the builder's rejection comes after it. */
  function UpdateCartPlan(body: Fields): seq<Step> {
    if !Truthy(Get(body, "id")) then [Throw(RequiredId)]
    else
      match CartUpdate(body)
      case Err(e) => [Send(Begin), Throw(e)]
      case Ok(u) => Transactional([Stmt(u.Query(), u.values)], 201, Message("Edit success"))
  }

  /**
   * The statement `updateCart` builds: with a defined `cartQuantity` it is
   * `UPDATE carts SET cart_quantity = $1 WHERE id = $2` bound to the
   * quantity and the id; without one the builder rejects the update.
   */
  lemma CartUpdateShape(body: Fields)
    ensures var cq := Get(body, "cartQuantity");
      var r := CartUpdate(body);
      && (cq == Undefined ==> r == Err(NoFields))
      && (cq != Undefined ==>
            && r.Ok? && r.value.table == "carts"
            && r.value.setFields == [Assignment("cart_quantity", 1)]
            && r.value.whereClauses == [Assignment("id", 2)]
            && r.value.values == [cq, Get(body, "id")])
  {
    var cq := Get(body, "cartQuantity");
    var p := CartFields[..0];
    assert p == [];
    var data, fieldMap := PickDefined(body, CartFields).0, PickDefined(body, CartFields).1;
    if cq != Undefined {
      assert data == Assign([], "cartQuantity", cq) == [("cartQuantity", cq)];
      assert fieldMap == map["cartQuantity" := "cart_quantity"];
      SingleUpdate("carts", "cartQuantity", cq, "id", Get(body, "id"), fieldMap);
      assert Column("cartQuantity", fieldMap) == "cart_quantity";
      assert Column("id", fieldMap) == "id";
    } else {
      assert data == [];
    }
  }

  /** Without a truthy `id` nothing is sent: the handler rolls back and reports 400 `Required id`. */
  lemma UpdateCartNoId(body: Fields, fails: set<nat>)
    requires !Truthy(Get(body, "id"))
    ensures Handle(UpdateCartPlan(body), fails) == [Sent(Rollback), NextCalled(RequiredId), Released]
  {
    ThrowFirst(RequiredId, [], fails);
  }

  /** A body without `cartQuantity` gets BEGIN and then the builder's `No fields to update.` error. */
  lemma UpdateCartNoFields(body: Fields, fails: set<nat>)
    requires Truthy(Get(body, "id")) && Get(body, "cartQuantity") == Undefined
    ensures Handle(UpdateCartPlan(body), fails) ==
      [Sent(Begin), Sent(Rollback), NextCalled(if 0 in fails then DbError else NoFields), Released]
  {
    CartUpdateShape(body);
    var steps := [Send(Begin), Throw(NoFields)];
    assert UpdateCartPlan(body) == steps;
    assert steps[1..] == [Throw(NoFields)];
    assert Run(steps[1..], fails, 1) == ([], Some(NoFields));
  }

  // ---------------------------------------------------------------------------
  // deleteCart
  // ---------------------------------------------------------------------------

  /** A row of the ownership query: `SELECT id, user_id`. */
  datatype Row = Row(id: Value, userId: Value)

  const IdRequired := HttpError(400, "Bad Request: id is required")

  const SelectOwners: Text := [Lit("SELECT id, user_id FROM carts WHERE id = ANY("), Ph(1), Lit(")")]
  const DeleteIds: Text := [Lit("DELETE FROM carts WHERE id = ANY("), Ph(1), Lit(")")]

  /** The requested ids: a falsy `id` or an empty array is rejected, a scalar becomes a one-element list. */
  function IdList(id: Value): (r: Result<seq<Value>, Error>)
    ensures r.Err? <==> !Truthy(id) || id == Arr([])
    ensures r.Err? ==> r.error == IdRequired
    ensures r.Ok? ==> |r.value| > 0 && (if id.Arr? then r.value == id.items else r.value == [id])
  {
    if !Truthy(id) || (id.Arr? && |id.items| == 0) then Err(IdRequired)
    else if id.Arr? then Ok(id.items)
    else Ok([id])
  }

  /** `rows.filter(row => row.user_id !== userId).map(row => row.id)` */
  function Unauthorized(rows: seq<Row>, userId: Value): (r: seq<Value>)
    ensures |r| <= |rows|
    ensures forall v :: v in r <==> exists i :: 0 <= i < |rows| && rows[i].userId != userId && rows[i].id == v
    decreases |rows|
  {
    if |rows| == 0 then []
    else
      var rest := Unauthorized(rows[1..], userId);
      assert forall i :: 1 <= i < |rows| ==> rows[i] == rows[1..][i - 1];
      if rows[0].userId != userId then [rows[0].id] + rest else rest
  }

  /** `rows.map(row => row.id)` */
  function FoundIds(rows: seq<Row>): (r: seq<Value>)
    ensures |r| == |rows|
    ensures forall i :: 0 <= i < |rows| ==> r[i] == rows[i].id
  {
    seq(|rows|, i requires 0 <= i < |rows| => rows[i].id)
  }

  /** `ids.filter(i => !found.includes(i))` */
  function NotFound(ids: seq<Value>, found: seq<Value>): (r: seq<Value>)
    ensures |r| <= |ids|
    ensures forall v :: v in r <==> v in ids && v !in found
    decreases |ids|
  {
    if |ids| == 0 then []
    else
      var rest := NotFound(ids[1..], found);
      assert forall v :: v in ids <==> v == ids[0] || v in ids[1..];
      if ids[0] !in found then [ids[0]] + rest else rest
  }

  /** The ownership check: the 403 for rows of another user comes before the 400 for ids that were not found. */
  function DeleteCheck(ids: seq<Value>, rows: seq<Row>, userId: Value): Option<Error> {
    var unauthorized := Unauthorized(rows, userId);
    var missing := NotFound(ids, FoundIds(rows));
    if |unauthorized| > 0 then
      Some(HttpError(403, "Forbidden: no permission to delete carts " + JoinValues(unauthorized, ", ")))
    else if |missing| > 0 then
      Some(HttpError(400, "Bad Request: carts not found " + JoinValues(missing, ", ")))
    else None
  }

  /** Every returned row belongs to the caller and every requested id was returned. */
  predicate Deletable(ids: seq<Value>, rows: seq<Row>, userId: Value) {
    && (forall i :: 0 <= i < |rows| ==> rows[i].userId == userId)
    && (forall j :: 0 <= j < |ids| ==> exists i :: 0 <= i < |rows| && rows[i].id == ids[j])
  }

  /** The check passes exactly when the request is deletable as a whole. */
  lemma DeleteCheckPasses(ids: seq<Value>, rows: seq<Row>, userId: Value)
    ensures DeleteCheck(ids, rows, userId).None? <==> Deletable(ids, rows, userId)
  {
    var unauthorized := Unauthorized(rows, userId);
    var found := FoundIds(rows);
    var missing := NotFound(ids, found);
    if |unauthorized| > 0 {
      assert unauthorized[0] in unauthorized;
    } else {
      forall i | 0 <= i < |rows| ensures rows[i].userId == userId {
        assert rows[i].id !in unauthorized;
      }
    }
    if |missing| > 0 {
      assert missing[0] in missing;
      var j :| 0 <= j < |ids| && ids[j] == missing[0];
      forall i | 0 <= i < |rows| ensures rows[i].id != ids[j] {
        assert found[i] == rows[i].id;
      }
    } else {
      forall j | 0 <= j < |ids| ensures exists i :: 0 <= i < |rows| && rows[i].id == ids[j] {
        assert ids[j] !in missing;
        var i :| 0 <= i < |found| && found[i] == ids[j];
        assert rows[i].id == ids[j];
      }
    }
  }

  /** A row of another user always yields the 403, even when some requested ids were not found. */
  lemma DeleteForbiddenFirst(ids: seq<Value>, rows: seq<Row>, userId: Value, i: nat)
    requires i < |rows| && rows[i].userId != userId
    ensures DeleteCheck(ids, rows, userId).Some?
    ensures DeleteCheck(ids, rows, userId).value.HttpError? && DeleteCheck(ids, rows, userId).value.status == 403
  {
    assert rows[i].id in Unauthorized(rows, userId);
  }

  /**
   * `deleteCart`: the ownership SELECT runs before BEGIN; a failed check
   * throws; otherwise one DELETE of all requested ids runs in a transaction.
   * `rows` is what the ownership query returned.
   */
  function DeleteCartPlan(caller: Caller, body: Fields, rows: seq<Row>): seq<Step> {
    match IdList(Get(body, "id"))
    case Err(e) => [Throw(e)]
    case Ok(ids) =>
      [Send(Stmt(SelectOwners, [Arr(ids)]))] +
      match DeleteCheck(ids, rows, caller.id)
      case Some(e) => [Throw(e)]
      case None => Transactional([Stmt(DeleteIds, [Arr(ids)])], 201, Message("Delete success"))
  }

  /** A rejected request sends no statement: the trace is the catch block's ROLLBACK, `next` and the release. */
  lemma DeleteCartRejected(caller: Caller, body: Fields, rows: seq<Row>, fails: set<nat>)
    requires IdList(Get(body, "id")).Err?
    ensures Handle(DeleteCartPlan(caller, body, rows), fails) == [Sent(Rollback), NextCalled(IdRequired), Released]
  {
    ThrowFirst(IdRequired, [], fails);
  }

  lemma SelectIsNotDelete(ps: seq<Value>, qs: seq<Value>)
    ensures Stmt(SelectOwners, ps) != Stmt(DeleteIds, qs)
  {
    var a := "SELECT id, user_id FROM carts WHERE id = ANY(";
    var b := "DELETE FROM carts WHERE id = ANY(";
    assert |a| != |b|;
    assert SelectOwners[0] == Lit(a) && DeleteIds[0] == Lit(b);
  }

  /** The only DELETE of a plan is the one of a deletable request, and it names every requested id. */
  lemma DeletePlanSends(caller: Caller, body: Fields, rows: seq<Row>, ps: seq<Value>)
    ensures var ids := IdList(Get(body, "id"));
      Send(Stmt(DeleteIds, ps)) in DeleteCartPlan(caller, body, rows) ==>
        ids.Ok? && DeleteCheck(ids.value, rows, caller.id).None? && ps == [Arr(ids.value)]
  {
    var steps := DeleteCartPlan(caller, body, rows);
    match IdList(Get(body, "id"))
    case Err(e) =>
      assert steps == [Throw(e)];
    case Ok(vs) =>
      var select := Stmt(SelectOwners, [Arr(vs)]);
      SelectIsNotDelete([Arr(vs)], ps);
      match DeleteCheck(vs, rows, caller.id)
      case Some(e) =>
        assert steps == [Send(select), Throw(e)];
      case None =>
        var del := Stmt(DeleteIds, [Arr(vs)]);
        assert Sends([del]) == [Send(del)];
        assert steps == [Send(select), Send(Begin), Send(del), Send(Commit), Respond(201, Message("Delete success"))];
  }

  /**
   * All or nothing: a DELETE is sent only for a deletable request, and it
   * names every requested id; the deletion commits exactly when the request
   * is deletable and none of SELECT, BEGIN, DELETE and COMMIT fails.
   */
  lemma DeleteCartAllOrNothing(caller: Caller, body: Fields, rows: seq<Row>, fails: set<nat>)
    ensures var t := Handle(DeleteCartPlan(caller, body, rows), fails);
      var ids := IdList(Get(body, "id"));
      && (forall ps :: Sent(Stmt(DeleteIds, ps)) in t ==>
            ids.Ok? && Deletable(ids.value, rows, caller.id) && ps == [Arr(ids.value)])
      && (Committed(t) <==> ids.Ok? && Deletable(ids.value, rows, caller.id) && !FailsBefore(fails, 0, 4))
  {
    var steps := DeleteCartPlan(caller, body, rows);
    var t := Handle(steps, fails);
    var ids := IdList(Get(body, "id"));
    forall ps | Sent(Stmt(DeleteIds, ps)) in t
      ensures ids.Ok? && Deletable(ids.value, rows, caller.id) && ps == [Arr(ids.value)]
    {
      HandleSentFromPlan(steps, fails, Stmt(DeleteIds, ps));
      DeletePlanSends(caller, body, rows, ps);
      DeleteCheckPasses(ids.value, rows, caller.id);
    }
    DeleteCartCommit(caller, body, rows, fails);
  }

  /** The commit half of the all-or-nothing property. */
  lemma DeleteCartCommit(caller: Caller, body: Fields, rows: seq<Row>, fails: set<nat>)
    ensures var t := Handle(DeleteCartPlan(caller, body, rows), fails);
      var ids := IdList(Get(body, "id"));
      Committed(t) <==> ids.Ok? && Deletable(ids.value, rows, caller.id) && !FailsBefore(fails, 0, 4)
  {
    var steps := DeleteCartPlan(caller, body, rows);
    var ids := IdList(Get(body, "id"));
    match ids
    case Err(e) =>
      ThrowFirst(e, [], fails);
    case Ok(vs) =>
      DeleteCheckPasses(vs, rows, caller.id);
      var select := Stmt(SelectOwners, [Arr(vs)]);
      match DeleteCheck(vs, rows, caller.id)
      case Some(e) =>
        assert steps == [Send(select), Throw(e)];
        assert steps[1..] == [Throw(e)];
        assert Run(steps[1..], fails, 1) == ([], Some(e));
        assert Sent(Commit) !in Handle(steps, fails);
      case None =>
        var stmts := [Stmt(DeleteIds, [Arr(vs)])];
        assert steps == Sends([select]) + Transactional(stmts, 201, Message("Delete success"));
        TransactionalOutcome([select], stmts, 201, Message("Delete success"), fails);
  }
}
