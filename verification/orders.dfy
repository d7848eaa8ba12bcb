/**
 * The orders controller: creating an order with its items (one order row,
 * one multi-row insert into `order_items`, and the deletion of the ordered
 * carts, all in one transaction), listing orders scoped to the caller,
 * updating the listed order fields, and deleting an order.
 */
module Orders {
  import opened Wrappers
  import opened Js
  import opened SqlText
  import opened Errors
  import opened CaseMapper
  import opened CreateQuery
  import opened UpdateQuery
  import opened Transaction
  import opened Handlers

  // ---------------------------------------------------------------------------
  // createOrder: validating the order list
  // ---------------------------------------------------------------------------

  /** A property read through the destructuring `({ productId, … })`: only objects have these properties. */
  function Prop(item: Value, k: string): Value {
    if item.Obj? then Get(item.fields, k) else Undefined
  }

  /** What the validation callback throws for one item: destructuring `null` or `undefined` is a TypeError, a falsy field a 400. */
  function ItemError(item: Value): Option<Error> {
    if item.Undefined? || item.Null? then Some(TypeError)
    else if !Truthy(Prop(item, "productId")) || !Truthy(Prop(item, "productPrice")) ||
            !Truthy(Prop(item, "cartQuantity")) || !Truthy(Prop(item, "cartId")) then Some(BadRequest)
    else None
  }

  /** The `cartId` of every item, in list order. */
  function CartIdsOf(items: seq<Value>): (ids: seq<Value>)
    ensures |ids| == |items|
  {
    seq(|items|, i requires 0 <= i < |items| => Prop(items[i], "cartId"))
  }

  lemma CartIdsOfCons(items: seq<Value>)
    requires |items| > 0
    ensures CartIdsOf(items) == [Prop(items[0], "cartId")] + CartIdsOf(items[1..])
  {
    var ids := [Prop(items[0], "cartId")] + CartIdsOf(items[1..]);
    forall i | 0 <= i < |items| ensures CartIdsOf(items)[i] == ids[i] {
      if i > 0 {
        assert items[1..][i - 1] == items[i];
      }
    }
  }

  /** Every item passes the validation callback. */
  predicate ValidItems(items: seq<Value>) {
    forall i :: 0 <= i < |items| ==> ItemError(items[i]).None?
  }

  lemma ValidItemsCons(items: seq<Value>)
    requires |items| > 0
    ensures ValidItems(items) <==> ItemError(items[0]).None? && ValidItems(items[1..])
  {
    assert forall i :: 1 <= i < |items| ==> items[i] == items[1..][i - 1];
  }

  /** The validating `forEach`: the error of the first invalid item, or the cart ids it collected. */
  function ValidateItems(items: seq<Value>): (r: Result<seq<Value>, Error>)
    ensures r.Ok? <==> ValidItems(items)
    ensures r.Ok? ==> r.value == CartIdsOf(items)
    decreases |items|
  {
    if |items| == 0 then Ok([])
    else
      ValidItemsCons(items);
      match ItemError(items[0])
      case Some(e) => Err(e)
      case None =>
        var rest := ValidateItems(items[1..]);
        if rest.Err? then Err(rest.error)
        else
          CartIdsOfCons(items);
          Ok([Prop(items[0], "cartId")] + rest.value)
  }

  /** After a valid first item, the list is rejected exactly as its tail is. */
  lemma ValidateItemsTail(items: seq<Value>)
    requires |items| > 0 && ItemError(items[0]).None?
    ensures ValidateItems(items).Err? <==> ValidateItems(items[1..]).Err?
    ensures ValidateItems(items).Err? ==> ValidateItems(items).error == ValidateItems(items[1..]).error
  {
  }

  /** The first i + 1 items, seen as the first item followed by the first i items of the tail. */
  lemma PrefixCons<T>(items: seq<T>, i: nat)
    requires i < |items|
    ensures items[..i + 1] == [items[0]] + items[1..][..i]
  {
  }

  lemma ValidPrefixCons(items: seq<Value>, i: nat)
    requires i < |items| && ItemError(items[0]).None? && ValidItems(items[1..][..i])
    ensures ValidItems(items[..i + 1])
  {
    PrefixCons(items, i);
    ValidItemsAppend([items[0]], items[1..][..i]);
  }

  /** Validity of a concatenation is validity of both parts. */
  lemma ValidItemsAppend(a: seq<Value>, b: seq<Value>)
    requires ValidItems(a) && ValidItems(b)
    ensures ValidItems(a + b)
  {
    var s := a + b;
    forall k | 0 <= k < |s|
      ensures ItemError(s[k]).None?
    {
      if k >= |a| {
        assert s[k] == b[k - |a|];
      }
    }
  }

  /** A rejected list is rejected with the error of its first invalid item. */
  lemma {:induction false} ValidateItemsFirstError(items: seq<Value>)
    requires ValidateItems(items).Err?
    ensures exists i :: 0 <= i < |items| && ItemError(items[i]) == Some(ValidateItems(items).error) &&
                        ValidItems(items[..i])
    decreases |items|
  {
    var e := ValidateItems(items).error;
    if ItemError(items[0]).None? {
      var rest := items[1..];
      ValidateItemsTail(items);
      ValidateItemsFirstError(rest);
      var i :| 0 <= i < |rest| && ItemError(rest[i]) == Some(e) && ValidItems(rest[..i]);
      ValidPrefixCons(items, i);
      assert items[i + 1] == rest[i];
    } else {
      assert items[..0] == [];
    }
  }

  // ---------------------------------------------------------------------------
  // createOrder: the order row
  // ---------------------------------------------------------------------------

  /** The status every new order starts in ("awaiting deposit"). */
  const AwaitingDeposit: Value := Str("입금대기")

  /** `restBody` after `Object.assign(restBody, { userId: id, orderStatus: '입금대기' })`. */
  function OrderRow(caller: Caller, body: Fields): Fields {
    Assign(Assign(Without(body, {"orderList"}), "userId", caller.id), "orderStatus", AwaitingDeposit)
  }

  /**
   * The order row never carries `orderList`, always carries the caller as
   * `userId` and the initial status as `orderStatus` whatever the client
   * sent, and keeps every other body field as it is.
   */
  lemma OrderRowContents(caller: Caller, body: Fields)
    ensures var row := OrderRow(caller, body);
      && Get(row, "userId") == caller.id
      && Get(row, "orderStatus") == AwaitingDeposit
      && Get(row, "orderList") == Undefined
      && forall k :: k != "orderList" && k != "userId" && k != "orderStatus" ==> Get(row, k) == Get(body, k)
  {
    var rest := Without(body, {"orderList"});
    forall k | k != "userId" && k != "orderStatus" {
      GetWithout(body, {"orderList"}, k);
    }
    GetWithout(body, {"orderList"}, "orderList");
  }

  // ---------------------------------------------------------------------------
  // createOrder: the order items
  // ---------------------------------------------------------------------------

  /** `, $lo, …, $lo+k-1)`: the rest of a tuple after its first placeholder. */
  function TupleRest(lo: nat, k: nat): Text
    decreases k
  {
    if k == 0 then [Lit(")")] else [Lit(", "), Ph(lo)] + TupleRest(lo + 1, k - 1)
  }

  /** `($5i+1, $5i+2, $5i+3, $5i+4, $5i+5)` for item i. */
  function ItemTuple(i: nat): Text {
    [Lit("("), Ph(5 * i + 1)] + TupleRest(5 * i + 2, 4)
  }

  /** One tuple per item, in item order (the `valuesPlaceholder` array). */
  function Tuples(n: nat): (r: seq<Text>)
    ensures |r| == n
    decreases n
  {
    if n == 0 then [] else Tuples(n - 1) + [ItemTuple(n - 1)]
  }

  const ItemsInsertHead: string := "INSERT INTO order_items (order_id, product_id, order_quantity, product_price, user_id) VALUES "

  /** The order-items insert for n items, the tuples joined with `, `. */
  function OrderItemsQuery(n: nat): Text {
    [Lit(ItemsInsertHead)] +
    JoinPieces(Tuples(n), [Lit(", ")])
  }

  /** The five values pushed for one item, in the column order of the insert. */
  function ItemParams(orderId: Value, item: Value, userId: Value): seq<Value> {
    [orderId, Prop(item, "productId"), Prop(item, "cartQuantity"), Prop(item, "productPrice"), userId]
  }

  /** The rows of five values, one per item, in list order. */
  function ItemParamRows(orderId: Value, items: seq<Value>, userId: Value): (rows: seq<seq<Value>>)
    ensures |rows| == |items|
    ensures forall i :: 0 <= i < |items| ==> |rows[i]| == 5
  {
    seq(|items|, i requires 0 <= i < |items| => ItemParams(orderId, items[i], userId))
  }

  /** The rows pushed one after another. */
  function Flatten(rows: seq<seq<Value>>): seq<Value>
    decreases |rows|
  {
    if |rows| == 0 then [] else Flatten(rows[..|rows| - 1]) + rows[|rows| - 1]
  }

  /** The parameter `forEach`: five values per item, in list order. */
  function OrderItemParams(orderId: Value, items: seq<Value>, userId: Value): (ps: seq<Value>)
    ensures |ps| == 5 * |items|
  {
    var rows := ItemParamRows(orderId, items, userId);
    FlattenFives(rows, 0);
    Flatten(rows)
  }

  /** Flattening rows of five puts row i at positions 5i..5i+4. */
  lemma {:induction false} FlattenFives(rows: seq<seq<Value>>, i: nat)
    requires forall j :: 0 <= j < |rows| ==> |rows[j]| == 5
    requires i <= |rows|
    ensures |Flatten(rows)| == 5 * |rows|
    ensures i < |rows| ==> Flatten(rows)[5 * i .. 5 * i + 5] == rows[i]
    decreases |rows|
  {
    if |rows| > 0 {
      var k := |rows| - 1;
      var init := rows[..k];
      var r0 := Flatten(init);
      var r := Flatten(rows);
      FlattenFives(init, if i < k then i else k);
      assert r == r0 + rows[k];
      if i < k {
        assert init[i] == rows[i];
        assert r[5 * i .. 5 * i + 5] == r0[5 * i .. 5 * i + 5];
      } else if i == k {
        assert r[5 * i .. 5 * i + 5] == rows[k];
      }
    }
  }

  /**
   * Item i's five parameters sit at positions 5i..5i+4, which its tuple
   * numbers $5i+1..$5i+5: the order id, the product, the quantity, the
   * price and the caller, the same order id for every item.
   */
  lemma OrderItemParamsLayout(orderId: Value, items: seq<Value>, userId: Value, i: nat)
    requires i < |items|
    ensures OrderItemParams(orderId, items, userId)[5 * i .. 5 * i + 5] == ItemParams(orderId, items[i], userId)
  {
    FlattenFives(ItemParamRows(orderId, items, userId), i);
  }

  lemma LitPh(s: string, k: nat, rest: Text)
    ensures Placeholders([Lit(s), Ph(k)] + rest) == [k] + Placeholders(rest)
  {
    var t := [Lit(s), Ph(k)] + rest;
    assert t[1..] == [Ph(k)] + rest;
    assert t[1..][1..] == rest;
  }

  lemma {:induction false} TupleRestPlaceholders(lo: nat, k: nat)
    ensures Placeholders(TupleRest(lo, k)) == Numbered(lo, k)
    decreases k
  {
    if k == 0 {
      assert Placeholders([Lit(")")]) == [] + Placeholders([]);
    } else {
      TupleRestPlaceholders(lo + 1, k - 1);
      LitPh(", ", lo, TupleRest(lo + 1, k - 1));
      assert [lo] + Numbered(lo + 1, k - 1) == Numbered(lo, k);
    }
  }

  lemma TuplePlaceholders(i: nat)
    ensures Placeholders(ItemTuple(i)) == Numbered(5 * i + 1, 5)
  {
    var o := 5 * i;
    TupleRestPlaceholders(o + 2, 4);
    LitPh("(", o + 1, TupleRest(o + 2, 4));
    assert [o + 1] + Numbered(o + 2, 4) == Numbered(o + 1, 5);
  }

  /** Piece i holds exactly $5i+1..$5i+5. */
  predicate FivePerPiece(ps: seq<Text>) {
    forall i :: 0 <= i < |ps| ==> Placeholders(ps[i]) == Numbered(5 * i + 1, 5)
  }

  lemma {:induction false} FivePerPiecePlaceholders(ps: seq<Text>)
    requires FivePerPiece(ps)
    ensures PiecePlaceholders(ps) == Numbered(1, 5 * |ps|)
    decreases |ps|
  {
    var n := |ps|;
    if n > 0 {
      var k := n - 1;
      var init, t := ps[..k], ps[k];
      assert FivePerPiece(init) by {
        forall i | 0 <= i < k ensures Placeholders(init[i]) == Numbered(5 * i + 1, 5) {
          assert init[i] == ps[i];
        }
      }
      FivePerPiecePlaceholders(init);
      assert ps == init + [t];
      PiecePlaceholdersAppend(init, [t]);
      OnePiecePlaceholders(t);
      NumberedSplit(1, 5 * k, 5);
      assert 5 * k + 5 == 5 * n;
    } else {
      assert Numbered(1, 5 * n) == [];
    }
  }

  /** A tuple numbered after the ones before it extends the layout. */
  lemma FivePerPieceSnoc(ps: seq<Text>, t: Text)
    requires FivePerPiece(ps)
    requires Placeholders(t) == Numbered(5 * |ps| + 1, 5)
    ensures FivePerPiece(ps + [t])
  {
    var qs := ps + [t];
    forall i | 0 <= i < |qs| ensures Placeholders(qs[i]) == Numbered(5 * i + 1, 5) {
      if i < |ps| {
        assert qs[i] == ps[i];
      }
    }
  }

  lemma {:induction false} TuplesFive(n: nat)
    ensures FivePerPiece(Tuples(n))
    decreases n
  {
    if n > 0 {
      TuplesFive(n - 1);
      TuplePlaceholders(n - 1);
      FivePerPieceSnoc(Tuples(n - 1), ItemTuple(n - 1));
    }
  }

  lemma TuplesPlaceholders(n: nat)
    ensures PiecePlaceholders(Tuples(n)) == Numbered(1, 5 * n)
  {
    TuplesFive(n);
    FivePerPiecePlaceholders(Tuples(n));
  }

  /** The order-items insert for n items uses exactly $1..$5n, matching its 5n parameters. */
  lemma OrderItemsPlaceholders(n: nat)
    ensures Placeholders(OrderItemsQuery(n)) == Numbered(1, 5 * n)
  {
    var head: Text := [Lit(ItemsInsertHead)];
    assert Placeholders([Lit(", ")]) == [] + Placeholders([]);
    JoinPiecesPlaceholders(Tuples(n), [Lit(", ")]);
    TuplesPlaceholders(n);
    assert Placeholders(head) == [] + Placeholders([]);
    PlaceholdersAppend(head, JoinPieces(Tuples(n), [Lit(", ")]));
  }

  // ---------------------------------------------------------------------------
  // createOrder: the plan
  // ---------------------------------------------------------------------------

  /** The per-cart delete of the ordered carts, with the statement's own line breaks. */
  const CartDeleteText: Text := [Lit("\n        DELETE FROM carts WHERE id = "), Ph(1), Lit("\n      ")]

  function CartDelete(cartId: Value): Cmd {
    Stmt(CartDeleteText, [cartId])
  }

  function CartDeletes(cartIds: seq<Value>): (r: seq<Cmd>)
    ensures |r| == |cartIds|
    ensures forall i :: 0 <= i < |cartIds| ==> r[i] == CartDelete(cartIds[i])
  {
    seq(|cartIds|, i requires 0 <= i < |cartIds| => CartDelete(cartIds[i]))
  }

  /** `result.rows` as the array the handler camelCases. */
  function RowsValue(rows: seq<Fields>): Value {
    Arr(seq(|rows|, i requires 0 <= i < |rows| => Obj(rows[i])))
  }

  function CreatedBody(created: seq<Fields>): Value {
    Obj([("data", Obj([("rows", SnakeToCamelObject(RowsValue(created)))]))])
  }

  /** The insert of the order row. */
  function OrderInsert(caller: Caller, body: Fields, snake: string -> string, parse: Value -> Option<Value>): (c: Cmd)
    ensures c.Stmt?
  {
    var ins := BuildCreateQuery("orders", OrderRow(caller, body), None, snake, parse);
    Stmt(ins.Query(), ins.values)
  }

  /** The statements of a valid order: the order row, the items, then one cart delete per item. */
  function OrderStatements(caller: Caller, body: Fields, snake: string -> string, parse: Value -> Option<Value>,
                           items: seq<Value>, orderId: Value): seq<Cmd> {
    [OrderInsert(caller, body, snake, parse), Stmt(OrderItemsQuery(|items|), OrderItemParams(orderId, items, caller.id))] +
    CartDeletes(CartIdsOf(items))
  }

  /** `result.rows[0].id`, read once per item; with no items it is never read. */
  function OrderIdOf(created: seq<Fields>): Value {
    if |created| > 0 then Get(created[0], "id") else Undefined
  }

  /**
   * `createOrder`. Validation and the order insert's text happen before
   * BEGIN. `created` is what the order insert returned; reading `rows[0].id`
   * for the first item throws when that result is empty.
   */
  function CreateOrderPlan(caller: Caller, body: Fields, snake: string -> string, parse: Value -> Option<Value>,
                           created: seq<Fields>): seq<Step> {
    var list := Get(body, "orderList");
    if !list.Arr? then [Throw(BadRequest)]
    else
      match ValidateItems(list.items)
      case Err(e) => [Throw(e)]
      case Ok(_) =>
        if |created| == 0 && |list.items| > 0 then [Send(Begin), Send(OrderInsert(caller, body, snake, parse)), Throw(TypeError)]
        else
          Transactional(OrderStatements(caller, body, snake, parse, list.items, OrderIdOf(created)),
                        201, CreatedBody(created))
  }

  /** An order list that is not an array, or an invalid item, is rejected before any statement is sent. */
  lemma CreateOrderRejected(caller: Caller, body: Fields, snake: string -> string, parse: Value -> Option<Value>,
                            created: seq<Fields>, fails: set<nat>)
    requires !Get(body, "orderList").Arr? || !ValidItems(Get(body, "orderList").items)
    ensures var e := if !Get(body, "orderList").Arr? then BadRequest else ValidateItems(Get(body, "orderList").items).error;
      Handle(CreateOrderPlan(caller, body, snake, parse, created), fails) == [Sent(Rollback), NextCalled(e), Released]
  {
    var e := if !Get(body, "orderList").Arr? then BadRequest else ValidateItems(Get(body, "orderList").items).error;
    ThrowFirst(e, [], fails);
  }

  /**
   * The transaction runs the order insert, then the item insert with
   * $1..$5n bound to five values per item, then one cart delete per item,
   * bound to that item's `cartId`, in list order.
   */
  lemma CreateOrderStatements(caller: Caller, body: Fields, snake: string -> string, parse: Value -> Option<Value>,
                              items: seq<Value>, orderId: Value)
    ensures var stmts := OrderStatements(caller, body, snake, parse, items, orderId);
      var n := |items|;
      && |stmts| == n + 2
      && stmts[1].sql == OrderItemsQuery(n)
      && Placeholders(stmts[1].sql) == Numbered(1, |stmts[1].params|)
      && (forall i :: 0 <= i < n ==> stmts[1].params[5 * i .. 5 * i + 5] == ItemParams(orderId, items[i], caller.id))
      && (forall i :: 0 <= i < n ==> stmts[2 + i] == CartDelete(Prop(items[i], "cartId")))
  {
    OrderItemsStatement(caller.id, items, orderId);
    OrderDeletes(caller, body, snake, parse, items, orderId);
  }

  /** The item insert: $1..$5n, with item i's five values at positions 5i..5i+4. */
  lemma OrderItemsStatement(userId: Value, items: seq<Value>, orderId: Value)
    ensures var ps := OrderItemParams(orderId, items, userId);
      && Placeholders(OrderItemsQuery(|items|)) == Numbered(1, |ps|)
      && forall i :: 0 <= i < |items| ==> ps[5 * i .. 5 * i + 5] == ItemParams(orderId, items[i], userId)
  {
    OrderItemsPlaceholders(|items|);
    forall i | 0 <= i < |items| {
      OrderItemParamsLayout(orderId, items, userId, i);
    }
  }

  /** After the two inserts, item i's cart is deleted by its `cartId`. */
  lemma OrderDeletes(caller: Caller, body: Fields, snake: string -> string, parse: Value -> Option<Value>,
                     items: seq<Value>, orderId: Value)
    ensures var stmts := OrderStatements(caller, body, snake, parse, items, orderId);
      && |stmts| == |items| + 2
      && stmts[1] == Stmt(OrderItemsQuery(|items|), OrderItemParams(orderId, items, caller.id))
      && forall i :: 0 <= i < |items| ==> stmts[2 + i] == CartDelete(Prop(items[i], "cartId"))
  {
    var stmts := OrderStatements(caller, body, snake, parse, items, orderId);
    var ds := CartDeletes(CartIdsOf(items));
    assert stmts[2..] == ds;
    forall i | 0 <= i < |items| ensures stmts[2 + i] == CartDelete(Prop(items[i], "cartId")) {
      assert stmts[2 + i] == ds[i];
    }
  }

  /** Every command of an order is a statement. */
  lemma OrderStatementsAreStmts(caller: Caller, body: Fields, snake: string -> string, parse: Value -> Option<Value>,
                                items: seq<Value>, orderId: Value)
    ensures var stmts := OrderStatements(caller, body, snake, parse, items, orderId);
      AllStmts(stmts) && |stmts| == |items| + 2
  {
    StmtsThenDeletes(OrderInsert(caller, body, snake, parse), Stmt(OrderItemsQuery(|items|), OrderItemParams(orderId, items, caller.id)),
                     CartIdsOf(items));
  }

  lemma StmtsThenDeletes(x: Cmd, y: Cmd, cartIds: seq<Value>)
    requires x.Stmt? && y.Stmt?
    ensures AllStmts([x, y] + CartDeletes(cartIds))
  {
    var stmts := [x, y] + CartDeletes(cartIds);
    assert forall i :: 2 <= i < |stmts| ==> stmts[i] == CartDeletes(cartIds)[i - 2];
  }

  /** A valid order whose insert returned its row (or that has no items) runs as one transaction. */
  lemma CreateOrderPlanValid(caller: Caller, body: Fields, snake: string -> string, parse: Value -> Option<Value>,
                             created: seq<Fields>)
    requires Get(body, "orderList").Arr? && ValidItems(Get(body, "orderList").items)
    requires |created| > 0 || |Get(body, "orderList").items| == 0
    ensures var stmts := OrderStatements(caller, body, snake, parse, Get(body, "orderList").items, OrderIdOf(created));
      CreateOrderPlan(caller, body, snake, parse, created) == Transactional(stmts, 201, CreatedBody(created))
  {
  }

  /** An empty insert result, read for a first item, throws right after the order insert. */
  lemma CreateOrderPlanNoRow(caller: Caller, body: Fields, snake: string -> string, parse: Value -> Option<Value>,
                             created: seq<Fields>)
    requires Get(body, "orderList").Arr? && ValidItems(Get(body, "orderList").items)
    requires |created| == 0 && |Get(body, "orderList").items| > 0
    ensures CreateOrderPlan(caller, body, snake, parse, created) ==
      [Send(Begin), Send(OrderInsert(caller, body, snake, parse)), Throw(TypeError)]
  {
  }

  /**
   * The order, its items and the cart deletions commit together or not at
   * all: exactly when the list is valid, the order id can be read (the
   * insert returned its row, or there are no items to read it for), and none
   * of the n + 4 commands fails; the 201 answer is sent exactly when it commits.
   */
  lemma CreateOrderOutcome(caller: Caller, body: Fields, snake: string -> string, parse: Value -> Option<Value>,
                           created: seq<Fields>, fails: set<nat>)
    ensures var list := Get(body, "orderList");
      var t := Handle(CreateOrderPlan(caller, body, snake, parse, created), fails);
      && (Committed(t) <==>
            && list.Arr? && ValidItems(list.items) && (|created| > 0 || |list.items| == 0)
            && !FailsBefore(fails, 0, |list.items| + 4))
      && (Committed(t) <==> Responded(201, CreatedBody(created)) in t)
  {
    var list := Get(body, "orderList");
    var steps := CreateOrderPlan(caller, body, snake, parse, created);
    if !list.Arr? || !ValidItems(list.items) {
      CreateOrderRejected(caller, body, snake, parse, created, fails);
    } else if |created| == 0 && |list.items| > 0 {
      CreateOrderPlanNoRow(caller, body, snake, parse, created);
      BeginSendThrow(OrderInsert(caller, body, snake, parse), TypeError, fails, 201, CreatedBody(created));
    } else {
      var stmts := OrderStatements(caller, body, snake, parse, list.items, OrderIdOf(created));
      CreateOrderPlanValid(caller, body, snake, parse, created);
      OrderStatementsAreStmts(caller, body, snake, parse, list.items, OrderIdOf(created));
      PlanOutcome(steps, stmts, 201, CreatedBody(created), fails, |list.items| + 4);
    }
  }

  // ---------------------------------------------------------------------------
  // getOrder
  // ---------------------------------------------------------------------------

  /** `getOrder`: the list-read plan on `orders`, scoped to the caller unless the caller is an admin. */
  function GetOrderPlan(caller: Caller, q: Fields, snake: string -> string, rows: Value, total: int): seq<Step> {
    ReadPlan(ScopedQuery(caller, q), "orders", snake, SnakeToCamelObject(rows), total)
  }

  /** A failed builder makes `getOrder` call `next` twice, the second time with the 500. */
  lemma GetOrderBuilderFailure(caller: Caller, q: Fields, snake: string -> string, rows: Value, total: int, fails: set<nat>)
    requires var sq := ScopedQuery(caller, q);
      GetQuery.BuildGetQuery(sq, "orders", snake).Err? || GetTotalQuery.BuildGetTotalQuery(sq, "orders", snake).Err?
    ensures var sq := ScopedQuery(caller, q);
      var e := if GetQuery.BuildGetQuery(sq, "orders", snake).Err? then GetQuery.BuildGetQuery(sq, "orders", snake).error
               else GetTotalQuery.BuildGetTotalQuery(sq, "orders", snake).error;
      Handle(GetOrderPlan(caller, q, snake, rows, total), fails) ==
        [NextCalled(e), Sent(Rollback), NextCalled(QueryGenerationFailed), Released]
  {
    ReadPlanBuilderFailure(ScopedQuery(caller, q), "orders", snake, SnakeToCamelObject(rows), total, fails);
  }

  // ---------------------------------------------------------------------------
  // updateOrder
  // ---------------------------------------------------------------------------

  /** The updatable order fields and their columns, in the handler's order. */
  const OrderFields: seq<(string, string)> := [
    ("payMethod", "pay_method"), ("address", "address"), ("addressDetail", "address_detail"),
    ("bankCode", "bank_code"), ("accountNumber", "account_number"), ("deliveryCost", "delivery_cost"),
    ("trackingNumber", "tracking_number"), ("orderStatus", "order_status"), ("phoneNumber", "phone_number"),
    ("recipient", "recipient")
  ]

  lemma OrderFieldsDistinct()
    ensures DistinctSpec(OrderFields) && "id" !in SpecKeys(OrderFields)
  {
    var f := OrderFields;
    assert |f[0].0| == 9 && |f[1].0| == 7 && |f[2].0| == 13 && |f[3].0| == 8 && |f[4].0| == 13;
    assert |f[5].0| == 12 && |f[6].0| == 14 && |f[7].0| == 11 && |f[8].0| == 11 && |f[9].0| == 9;
    assert f[0].0[0] != f[9].0[0] && f[2].0[1] != f[4].0[1] && f[7].0[0] != f[8].0[0];
    assert forall i :: 0 <= i < |f| ==> |SpecKeys(f)[i]| != 2;
  }

  /** `updateOrder`'s rejection of a falsy id. */
  const IdRequired: Error := HttpError(400, "Required id")

  function OrderUpdate(body: Fields): Result<UpdateStatement, Error> {
    ListedUpdate("orders", body, OrderFields, Get(body, "id"))
  }

  /** `updateOrder`: a falsy `id` is rejected before BEGIN; the builder's rejection comes after it. */
  function UpdateOrderPlan(body: Fields): seq<Step> {
    if !Truthy(Get(body, "id")) then [Throw(IdRequired)]
    else
      match OrderUpdate(body)
      case Err(e) => [Send(Begin), Throw(e)]
      case Ok(u) => Transactional([Stmt(u.Query(), u.values)], 201, Message("Edit success"))
  }

  /**
   * `updateOrder` commits exactly when the id is truthy, some listed field
   * is defined, and none of BEGIN, UPDATE and COMMIT fails; a falsy id is
   * rejected with nothing but the catch block's ROLLBACK.
   */
  lemma UpdateOrderOutcome(body: Fields, fails: set<nat>)
    ensures var t := Handle(UpdateOrderPlan(body), fails);
      && (Committed(t) <==> Truthy(Get(body, "id")) && OrderUpdate(body).Ok? && !FailsBefore(fails, 0, 3))
      && (Committed(t) <==> Responded(201, Message("Edit success")) in t)
      && (!Truthy(Get(body, "id")) ==> t == [Sent(Rollback), NextCalled(IdRequired), Released])
  {
    var plan := UpdateOrderPlan(body);
    if !Truthy(Get(body, "id")) {
      ThrowFirst(IdRequired, [], fails);
      assert [Throw(IdRequired)] + [] == plan;
    } else {
      match OrderUpdate(body)
      case Err(e) =>
        assert plan == [Send(Begin), Throw(e)];
        HandleNoCommit(plan, fails);
        HandleRespondFromPlan(plan, fails, 201, Message("Edit success"));
      case Ok(u) =>
        TransactionalAloneOutcome([Stmt(u.Query(), u.values)], 201, Message("Edit success"), fails);
    }
  }

  /**
   * The order update holds exactly the listed fields whose body value is
   * defined, in list order, each under its fixed column; `id` is never set
   * and is the only condition; with no defined field the builder rejects it.
   */
  lemma UpdateOrderShape(body: Fields)
    ensures var r := OrderUpdate(body);
      var kept := Picked(body, OrderFields);
      && (r.Err? <==> forall i :: 0 <= i < |OrderFields| ==> Get(body, OrderFields[i].0) == Undefined)
      && (r.Ok? ==>
            && |r.value.setFields| == |kept|
            && (forall i :: 0 <= i < |kept| ==>
                  && kept[i].0 != "id"
                  && r.value.values[i] == Get(body, kept[i].0)
                  && r.value.setFields[i] == Assignment(ColumnOf(OrderFields, kept[i].0), i + 1))
            && r.value.whereClauses == [Assignment("id", |kept| + 1)]
            && r.value.values[|kept|] == Get(body, "id"))
  {
    OrderFieldsDistinct();
    PickedUpdate("orders", body, OrderFields, Get(body, "id"));
  }

  // ---------------------------------------------------------------------------
  // deleteOrder
  // ---------------------------------------------------------------------------

  /** `deleteOrder`'s rejection of a missing id. */
  const MissingId: Error := HttpError(400, "Bad Request")

  const DeleteOrder: Text := [Lit("DELETE FROM orders WHERE id = "), Ph(1)]

  /** `deleteOrder`: only an `undefined` id is rejected; `null`, `0` or `""` reach the DELETE. */
  function DeleteOrderPlan(body: Fields): seq<Step> {
    var id := Get(body, "id");
    if id == Undefined then [Throw(MissingId)]
    else Transactional([Stmt(DeleteOrder, [id])], 201, Message("Delete success"))
  }

  /** The delete commits exactly when an id was given and none of BEGIN, DELETE and COMMIT fails. */
  lemma DeleteOrderOutcome(body: Fields, fails: set<nat>)
    ensures var t := Handle(DeleteOrderPlan(body), fails);
      && (Get(body, "id") == Undefined ==> t == [Sent(Rollback), NextCalled(MissingId), Released])
      && (Committed(t) <==> Get(body, "id") != Undefined && !FailsBefore(fails, 0, 3))
  {
    var id := Get(body, "id");
    if id == Undefined {
      ThrowFirst(MissingId, [], fails);
    } else {
      var stmts := [Stmt(DeleteOrder, [id])];
      TransactionalAloneOutcome(stmts, 201, Message("Delete success"), fails);
    }
  }
}
