# A Dafny model of the api-highland query layer and controllers

api-highland is an Express backend for a shop. Its controllers build SQL
text and parameter lists with a few helper builders, then run them on a
PostgreSQL client inside `BEGIN … COMMIT`, with `ROLLBACK` in the catch
block and `release` in the finally block. This project models the
following parts and proves properties about them:

- **Select builder** `buildGetQuery` (module `GetQuery`). It classifies
  request-query keys into `match`, `like`, `not` and `or` clauses, adds an
  optional date range, and renders `WHERE`, an optional
  `GROUP BY … ORDER BY …`, and `LIMIT … OFFSET …`.
- **Count builder** `buildGetTotalQuery` (module `GetTotalQuery`). It is
  the `COUNT(*)` variant of the select builder. Filter parsing and the
  multi-clause WHERE are the same code, line for line, in both builders, so
  they are modelled once, in module `Filters`.
- **Update builder** `buildUpdateQuery` (module `UpdateQuery`).
- **Insert builder** `buildCreateQuery` (module `CreateQuery`).
- **Case mapper** `snakeToCamel` and `snakeToCamelObject` (module
  `CaseMapper`). The repository has two identical copies,
  `src/utils/transform/toCamel.ts` and `src/utils/toCamel.ts`; one model
  covers both.
- **Handler discipline** (module `Transaction`). A controller body is a
  plan of steps: send a command, throw, forward an error to `next`, or
  respond. Running a plan against a set of failing step positions gives
  the observable trace, which records the commands sent, the calls to
  `next`, the response, and the release.
- **Controllers** (modules `Handlers`, `Carts`, `Orders`, `Users`). These
  hold the decision logic of the carts, orders and users controllers.
  Module `Handlers` holds the parts they share:
  - scoping a list query to the caller;
  - the list-read plan;
  - the "copy a body field into the update when it is defined" assembly.

Supporting modules:

- `Wrappers` holds `Option` and `Result`.
- `Errors` holds the thrown errors.
- `Js` models JavaScript values:
  - truthiness;
  - template-literal text;
  - objects as ordered key/value lists with `Object.assign` semantics;
  - `split`.
- `SqlText` models SQL text as a sequence of literal pieces and `$n`
  placeholders. This lets placeholder numbering be stated without parsing
  strings.

Parameters of the model:

- `toSnakeCase`, `JSON.parse`, `hashPassword` and `checkPassword` are
  function-typed parameters about which nothing is assumed.
  `checkPassword` returns either a verdict or the error it rejects with,
  as `bcrypt.compare` rejects a password that is missing or not a
  string.
- The rows the database returns are parameters of the plans.
- Whether each command fails is a parameter `fails`, the set of positions
  of the plan steps whose command fails. Every step counts toward the
  position, not only a sent command. In every plan here the commands come
  before any forward or response, so the two numberings agree.

Where the code behaves differently from what one might expect of it, the
model follows the code:

- The select builder always emits `SELECT *`. `getCart` and `getOrder`
  pass a join list and a select list, but the builder takes only
  `(req, next, table)` and ignores them.
- A two-part key with an unknown suffix (`name.foo`) is dropped silently.
  A key with three or more parts is a 400.
- An `or` clause never puts `OR` between clauses. With two or more
  clauses, only a first clause of kind `or` yields `WHERE OR …`, and every
  later clause is joined with `AND`.
- There is no default `ORDER BY`. The date column defaults to `created`.
  The date bounds are interpolated into the text without quotes.
- With a single clause, the select builder writes a `like` value into the
  text and binds nothing. The count builder binds it as `key = $1`, without
  the `%` wrapping.
- `buildGetTotalQuery` calls `toString()` on `from`, `sort` and `size`, so
  a `null` value for any of them is a `TypeError` that goes to `next`.
- The insert builder never fails: an empty body gives
  `INSERT INTO t () VALUES () RETURNING *`.
- When a list builder fails, it calls `next` itself and returns
  `undefined`. The handler then throws a 500, so `next` is called twice.
- The controllers' error paths send `ROLLBACK` even when no `BEGIN` was
  sent.
- The select and count builders write several request values into the SQL
  text as sent rather than binding them:
  - the `sdate` and `edate` bounds;
  - the `date` column;
  - the filter key names;
  - `size` and `from`.

  Such a value can change what the WHERE means. For example,
  `sdate=1&edate=1 OR 1=1` renders
  `… user_id = $1 AND created BETWEEN 1 AND 1 OR 1=1`. The scoping of
  `getCart` and `getOrder` to the caller therefore only puts the
  equality clause on the snake_case name of `userId`, bound to the
  caller's id, into the WHERE, joined by `AND`. It does not
  establish that only the caller's rows are listed.
- Other behaviours of the code that the model keeps:
  - `createUser` rejects an email only when the lookup returns exactly one
    row.
  - `updateUser` writes a `role` from the body, so a caller can change
    the role of their own record.
  - `updateUser` stores a defined but falsy password, such as `""`,
    without hashing it.
  - `getUsers` is not scoped to the caller.
  - `deleteOrder` rejects only an `undefined` id.
  - `checkUser` answers an unknown user and a wrong password with the
    same error. It does not check that the body has a password: without
    one, `bcrypt.compare` rejects, and `next` receives that error instead.

## Model

| member | source | states |
|---|---|---|
| Js.Assign | src/controllers/carts.ts:16 | `Object.assign(obj, { k: v })`: afterwards `k` reads as `v` and every other key reads as before; an existing key keeps its place, a new key is appended last |
| Js.Without | src/utils/query/buildGetQuery.ts:7 | the `...body` rest of a destructuring: no excluded key remains, every entry with another key is kept, and nothing is added |
| Js.GetWithout | src/controllers/orders.ts:19 | in the rest object an excluded key reads as `undefined` and every other key reads as in the original |
| Js.SplitJoin | src/utils/query/buildGetQuery.ts:12 | splitting a key on `.` and joining the parts with `.` gives the key back |
| Js.JoinSplit | src/utils/query/buildGetQuery.ts:12 | splitting the `.`-join of dot-free parts gives those parts back |
| CaseMapper.SnakeToCamel | src/utils/transform/toCamel.ts:1-3 | the rewrite never lengthens a name, keeps whether the first character is a lower-case letter, and leaves no `_x` pair (x lower-case) behind |
| CaseMapper.SnakeToCamelFixed | src/utils/transform/toCamel.ts:2 | a name the pattern `/_([a-z])/` does not match is returned unchanged |
| CaseMapper.SnakeToCamelNoUnderscore | src/utils/transform/toCamel.ts:2 | a name without `_` is returned unchanged |
| CaseMapper.SnakeToCamelIdempotent | src/utils/toCamel.ts:1-3 | applying the rewrite twice equals applying it once |
| CaseMapper.SnakeToCamelLength | src/utils/transform/toCamel.ts:2 | every dropped character is an underscore: the length shrinks by exactly the number of underscores removed |
| CaseMapper.CamelToSnakeUndoesSnakeToCamel | src/utils/transform/toCamel.ts:1-3 | on names without upper-case letters, the reference snake_case conversion undoes the rewrite |
| CaseMapper.SnakeToCamelUndoesCamelToSnake | src/utils/transform/toCamel.ts:1-3 | on names without `_`, the rewrite undoes the reference snake_case conversion |
| CaseMapper.SnakeToCamelObject | src/utils/transform/toCamel.ts:4-15 | arrays stay arrays of the same length, objects stay objects, and every other value (including `null`) is returned as it is |
| CaseMapper.ArrayElementwise | src/utils/toCamel.ts:5-6 | element i of a mapped array is element i mapped |
| CaseMapper.RekeyDistinct | src/utils/transform/toCamel.ts:8-12 | a re-keyed row never repeats a key |
| CaseMapper.RekeyKeys | src/utils/transform/toCamel.ts:8-12 | the keys of a re-keyed row are exactly the rewritten input keys |
| CaseMapper.RekeyLastWins | src/utils/toCamel.ts:8-12 | when several keys rewrite to the same key, the value of the last of them is kept, copied unchanged |
| CaseMapper.RekeyNoCollision | src/utils/transform/toCamel.ts:8-12 | without collisions, the re-keyed row has every entry in input order, with its key rewritten and its value unchanged |
| Filters.FilterEntriesExact | src/utils/query/buildGetQuery.ts:7 | `from`, `size`, `sort`, `sdate`, `edate` and `date` never reach the filter list; every other entry does |
| Filters.Classify | src/utils/query/buildGetQuery.ts:12-36 | a key is a 400 exactly when it has two or more dots; a dot-free key is an equality clause on its snake_case name; a clause carries the raw value and is never a date clause |
| Filters.ClassifyTwoParts | src/utils/query/buildGetQuery.ts:15-33 | `a.b` is classified by the suffix `b` (`like`, `not`, `or`); any other suffix adds no clause and raises nothing |
| Filters.ParseFilters | src/utils/query/buildGetQuery.ts:11-37 | the filter list is rejected with 400 exactly when some key has two or more dots; otherwise it has at most one clause per entry and no date clause (its contents are fixed by the lemmas below) |
| Filters.ParseFiltersKeepsMatch | src/utils/query/buildGetQuery.ts:13-14 | every dot-free filter key yields its equality clause |
| Filters.ParseFiltersAppend | src/utils/query/buildGetQuery.ts:11-37 | the `forEach` works entry by entry: the clauses of `a + b` are those of `a` followed by those of `b`, and `a + b` is rejected exactly when `a` or `b` is; clauses therefore follow entry order |
| Filters.ParseFiltersSingle | src/utils/query/buildGetQuery.ts:12-36 | a single entry contributes exactly the clause its classification gives, no clause for an unknown suffix, or the 400 |
| Filters.ParseFiltersKeeps | src/utils/query/buildGetQuery.ts:11-37 | every entry's clause is in the list |
| Filters.ParseFiltersKeepsTwoParts | src/utils/query/buildGetQuery.ts:15-33 | an `a.like`, `a.not` or `a.or` entry yields the clause of that kind on the snake_case name of `a`, bound to the entry's value |
| Filters.ParseFiltersFrom | src/utils/query/buildGetQuery.ts:11-37 | every clause in the list is the clause of some entry: nothing is invented |
| Filters.Clauses | src/utils/query/buildGetQuery.ts:38 | the date clause can only be last, and it is present exactly when both `sdate` and `edate` are truthy |
| Filters.ClausesKeepMatch | src/utils/query/buildGetQuery.ts:7-38 | a plain, non-reserved entry of the request query always becomes its equality clause |
| Filters.ConditionPlaceholders | src/utils/query/buildGetQuery.ts:44-47 | the condition of clause i carries the single placeholder `$(i+1)`, except a date range, which carries none |
| Filters.MultiBindingNoDate | src/utils/query/buildGetQuery.ts:39-52 | without a date clause, the WHERE placeholders are `$1..$n` and parameter i is clause i's value, wrapped in `%` for `like` |
| Filters.MultiBinding | src/utils/query/buildGetQuery.ts:39-52 | with the date clause last, it binds nothing; the placeholders are exactly `$1..$|params|`, and each non-date clause i is bound to its parameter at position i |
| Filters.MultiWhereLayout | src/utils/query/buildGetQuery.ts:41-47 | `WHERE` comes first, then `OR` only when the first clause has kind `or`, then clause 0; every later clause is preceded by `AND`, whatever its kind |
| GetQuery.SelectWhereSingle | src/utils/query/buildGetQuery.ts:53-61 | with one clause: a date range renders without `WHERE`; `like` is written into the text and binds nothing; every other kind becomes `WHERE key = $1` bound to the raw value |
| GetQuery.SelectWhereBinding | src/utils/query/buildGetQuery.ts:39-62 | whatever the number of clauses, the WHERE placeholders are exactly `$1..$|params|` |
| GetQuery.SortString | src/utils/query/buildGetQuery.ts:82-86 | a string is taken as it is; an array gives its first element when that is a string; anything else gives no sort string |
| GetQuery.ParseSort | src/utils/query/buildGetQuery.ts:63-73 | a 400 exactly when a non-empty sort string does not split into two parts on `:`; no sort exactly when the sort string is absent or empty |
| GetQuery.ParseSortColumnDirection | src/utils/query/buildGetQuery.ts:65-69 | `column:direction` sorts by `column`, descending exactly when the direction is `desc` |
| GetQuery.BuildGetQuery | src/utils/query/buildGetQuery.ts:5-80 | the builder fails (400) exactly when the filters or the sort fail; otherwise the pieces are the head, the WHERE pieces, the sort pieces and the page, in that order |
| GetQuery.SelectPlaceholders | src/utils/query/buildGetQuery.ts:39-76 | every placeholder of the joined select text refers to exactly one parameter: they are `$1..$|params|` in order |
| GetQuery.SelectDefaults | src/utils/query/buildGetQuery.ts:7-74 | a query without reserved keys gets no date clause, no sort pieces, and ends with `LIMIT 10 OFFSET 0` |
| GetTotalQuery.BuildGetTotalQuery | src/utils/query/buildGetTotalQuery.ts:5-69 | a `null` `from`, `sort` or `size` is a `TypeError`; otherwise the builder fails (400) exactly when the filters fail; the count text is the head followed by the WHERE pieces only |
| GetTotalQuery.TotalWhereSingle | src/utils/query/buildGetTotalQuery.ts:56-63 | with one clause, every kind but a date range, `like` included, becomes `WHERE key = $1` bound to the raw value |
| GetTotalQuery.TotalWhereBinding | src/utils/query/buildGetTotalQuery.ts:42-63 | the count's WHERE placeholders are exactly `$1..$|totalParams|` |
| GetTotalQuery.TotalPlaceholders | src/utils/query/buildGetTotalQuery.ts:11-65 | every placeholder of the joined count text refers to exactly one parameter |
| GetTotalQuery.TotalIgnoresSort | src/utils/query/buildGetTotalQuery.ts:7-10 | replacing a non-null `sort` by any string leaves the count query unchanged |
| GetTotalQuery.SelectCountAgree | src/utils/query/buildGetTotalQuery.ts:42-63 | when the select builds and no paging key is `null`, the count builds too; both bind the same parameters and share the WHERE pieces, except for a lone `like` clause, which the count binds as `key = $1` |
| UpdateQuery.Defined | src/utils/buildUpdateQuery.ts:15-16 | only defined entries are kept, and none are kept exactly when every entry is `undefined` |
| UpdateQuery.DefinedFrom | src/utils/buildUpdateQuery.ts:15-16 | every kept entry is an entry of the data |
| UpdateQuery.DefinedKeeps | src/utils/buildUpdateQuery.ts:15-16 | every defined entry of the data is kept |
| UpdateQuery.DefinedPosition | src/utils/buildUpdateQuery.ts:15-20 | a defined entry's position in the SET list is the number of defined entries before it: data order is kept |
| UpdateQuery.DefinedSkipsUndefined | src/utils/buildUpdateQuery.ts:16 | inserting an `undefined` entry anywhere in the data does not change what is kept |
| UpdateQuery.Statement | src/utils/buildUpdateQuery.ts:14-33 | SET entry i is `column = $(i+1)` bound to kept value i; WHERE entry j is `column = $(k+1+j)` bound to the j-th `where` value, which is not filtered; the column is `fieldMap[key]` when listed, else the key |
| UpdateQuery.BuildUpdateQuery | src/utils/buildUpdateQuery.ts:8-36 | the builder throws `No fields to update.` exactly when no data entry is defined; otherwise it gives the statement over the defined entries |
| UpdateQuery.SingleUpdate | src/utils/buildUpdateQuery.ts:14-33 | one defined entry and one condition give `SET c = $1 WHERE w = $2` bound to the two values |
| UpdateQuery.StatementPlaceholders | src/utils/buildUpdateQuery.ts:33 | a SET list numbered from 1, followed by a WHERE list that continues the count, has the placeholders `$1..$n` |
| UpdateQuery.UpdatePlaceholders | src/utils/buildUpdateQuery.ts:14-33 | the placeholders run `$1..$|values|` without restarting: SET takes `$1..$k`, WHERE continues at `$k+1` |
| UpdateQuery.UpdateExample | src/utils/buildUpdateQuery.ts:8-36 | `{ userName: "Kim", role: undefined }` with `where = { id }` gives `user_name = $1`, `id = $2` and the values `["Kim", id]` |
| CreateQuery.BuildCreateQuery | src/utils/query/buildCreateQuery.ts:13-44 | one column per body key, in key order, with the key's snake_case name and its (possibly parsed) value; a file adds exactly one last column `<table>_<field>` bound to the stored file name |
| CreateQuery.CreateBinding | src/utils/query/buildCreateQuery.ts:18-30 | for a body with distinct keys, column i is bound to entry i's own (possibly parsed) value |
| CreateQuery.CreatePlaceholders | src/utils/query/buildCreateQuery.ts:38-41 | the insert text has one placeholder per value, numbered `$1..$|values|` in order |
| CreateQuery.CreateEmpty | src/utils/query/buildCreateQuery.ts:18-43 | an empty body without a file is not rejected and renders `INSERT INTO t () VALUES () RETURNING *` |
| Transaction.ReleasedOnceLast | src/controllers/carts.ts:26-28 | whatever the plan and whatever fails, the client is released exactly once, as the last event |
| Transaction.FailureTail | src/controllers/carts.ts:23-25 | a body that throws ends in ROLLBACK, `next(err)` and the release, with exactly one ROLLBACK; a body that does not throw sends no ROLLBACK |
| Transaction.ThrowFirst | src/controllers/carts.ts:104-106 | a body that throws before sending anything still sends ROLLBACK, without a BEGIN |
| Transaction.ForwardThenThrow | src/utils/query/buildGetQuery.ts:77-79 | a builder that reports to `next` itself, followed by the handler's throw, makes `next` run twice, with a ROLLBACK in between |
| Transaction.TransactionalOutcome | src/controllers/carts.ts:110-133 | statements sent before a `BEGIN … COMMIT` body: the handler commits exactly when none of its commands fails, and it responds exactly when it commits |
| Transaction.TransactionalAloneOutcome | src/controllers/carts.ts:18-22 | a plan that is one `BEGIN … COMMIT` body commits exactly when none of its n + 2 commands fails, and it responds exactly when it commits |
| Transaction.Run | src/controllers/carts.ts:13-22 | definition of a handler's `try` body: the events it produces and the error it throws; see Transaction.FailureTail |
| Transaction.Handle | src/controllers/carts.ts:12-28 | definition of a handler on a dedicated client: the body, then ROLLBACK and `next(err)` on error, then the release; see Transaction.ReleasedOnceLast and Transaction.FailureTail |
| Transaction.HandleUnpooled | src/controllers/users.ts:36-52 | definition of a handler on `pool.query` in a plain `try`/`catch`: no ROLLBACK and no release, `next(err)` on error; see Users.GetUserOutcome |
| Handlers.ScopedQuery | src/controllers/carts.ts:35 | for a caller who is not an admin, `userId` reads as the caller's id and every other key is unchanged; an admin's query is unchanged |
| Handlers.ScopedQueryFilters | src/controllers/orders.ts:65-66 | for a caller who is not an admin, the clauses of a list query that builds always include the equality clause on the snake_case name of `userId` bound to the caller's id, whatever `userId` the client sent (presence only; see the note on values written into the text) |
| Handlers.ReadPlanBuilderFailure | src/controllers/carts.ts:36-51 | when a builder fails, the trace is `next(builder error)`, ROLLBACK, `next(500)` and the release |
| Handlers.ReadPlanStatements | src/controllers/carts.ts:52-57 | when both builders succeed, one transaction runs the select and then the count, each with placeholders `$1..$n` for its n parameters |
| Handlers.ReadPlan | src/controllers/carts.ts:36-61 | definition of the list-read plan; see Handlers.ReadPlanOutcome, Handlers.ReadPlanBuilderFailure and Handlers.ReadPlanStatements |
| Handlers.ReadPlanOutcome | src/controllers/carts.ts:36-61 | a list read commits exactly when both builders succeed and none of BEGIN, the select, the count and COMMIT fails; it answers with the rows and the total exactly when it commits |
| Handlers.Picked | src/controllers/orders.ts:123-162 | reference: only listed keys whose body value is defined, each with that value |
| Handlers.PickDefinedData | src/controllers/orders.ts:123-162 | with distinct listed keys, the data assembled by the `if (body.k !== undefined) Object.assign(…)` chain is the reference list of defined listed fields, in list order |
| Handlers.PickDefinedFieldMap | src/controllers/orders.ts:123-162 | the assembled field map maps exactly the picked keys, each to its listed column |
| Handlers.PickedHasKey | src/controllers/orders.ts:123-162 | a listed key is picked exactly when its body value is defined |
| Handlers.PickedEmpty | src/controllers/orders.ts:123-163 | nothing is picked exactly when no listed key has a defined body value |
| Handlers.PickedUpdate | src/controllers/orders.ts:117-163 | the assembled update is rejected exactly when no listed field is defined; otherwise SET holds the defined fields in list order, each under its listed column and bound to its body value; `id` is never set and is the only condition, `id = $k+1` |
| Carts.CreateCartOwner | src/controllers/carts.ts:14-17 | whatever `userId` the client sent, the insert has a `userId` column bound to the caller's id (through the parse step every value takes) |
| Carts.CreateCartOutcome | src/controllers/carts.ts:11-29 | the cart is stored and the rows returned exactly when none of BEGIN, INSERT and COMMIT fails |
| Carts.CreateCartPlan | src/controllers/carts.ts:11-29 | definition of `createCart`; see Carts.CreateCartOutcome and Carts.CreateCartOwner |
| Carts.GetCartScoped | src/controllers/carts.ts:34-48 | for a caller who is not an admin, the clauses of the cart list query, when it builds, include the equality clause on the snake_case name of `userId` bound to the caller's id; this is presence in the WHERE, not a guarantee that only the caller's carts are listed |
| Carts.GetCartPlan | src/controllers/carts.ts:31-68 | definition of `getCart`: the list-read plan on the caller-scoped query; see Handlers.ReadPlanOutcome and Carts.GetCartScoped |
| Carts.CartUpdateShape | src/controllers/carts.ts:76-86 | with a defined `cartQuantity`, the update is `UPDATE carts SET cart_quantity = $1 WHERE id = $2` bound to the quantity and the id; without one the builder rejects it |
| Carts.UpdateCartNoId | src/controllers/carts.ts:74 | without a truthy `id`, nothing but the catch block's ROLLBACK is sent, and `next` receives `Required id` |
| Carts.UpdateCartNoFields | src/controllers/carts.ts:75-86 | without `cartQuantity`, BEGIN is sent and then the builder's error (or BEGIN's own failure) reaches `next` |
| Carts.UpdateCartPlan | src/controllers/carts.ts:70-96 | definition of `updateCart`; see Carts.UpdateCartNoId, Carts.UpdateCartNoFields and Carts.CartUpdateShape |
| Carts.IdList | src/controllers/carts.ts:104-108 | a falsy `id` or an empty array is rejected with 400; an array gives its elements; a scalar gives a one-element list |
| Carts.Unauthorized | src/controllers/carts.ts:114 | the unauthorized ids are exactly the ids of the returned rows that belong to another user |
| Carts.NotFound | src/controllers/carts.ts:116 | the missing ids are exactly the requested ids that no returned row carries |
| Carts.DeleteCheckPasses | src/controllers/carts.ts:114-127 | the ownership check passes exactly when every returned row is the caller's and every requested id was returned |
| Carts.DeleteForbiddenFirst | src/controllers/carts.ts:118-127 | a row of another user always gives the 403, even when some ids are also missing |
| Carts.DeleteCartRejected | src/controllers/carts.ts:104-106 | a rejected id sends no statement: the trace is ROLLBACK, `next(400)` and the release |
| Carts.DeletePlanSends | src/controllers/carts.ts:108-130 | the plan contains a DELETE only for a request that passes the check, and that DELETE names every requested id |
| Carts.DeleteCartAllOrNothing | src/controllers/carts.ts:98-140 | a DELETE is sent only for a deletable request and names all its ids; the deletion commits exactly when the request is deletable and none of SELECT, BEGIN, DELETE and COMMIT fails |
| Carts.DeleteCartPlan | src/controllers/carts.ts:98-140 | definition of `deleteCart`; see Carts.DeleteCartAllOrNothing and Carts.DeleteCartRejected |
| Orders.ValidateItems | src/controllers/orders.ts:21-26 | the list passes exactly when every item passes (not `null` or `undefined`, four truthy fields); the collected cart ids are the items' `cartId`s in order |
| Orders.ValidateItemsFirstError | src/controllers/orders.ts:22-24 | a rejected list is rejected with the error of its first invalid item |
| Orders.OrderRowContents | src/controllers/orders.ts:18-27 | the order row never carries `orderList`, always carries the caller as `userId` and `입금대기` as `orderStatus` whatever the client sent, and keeps every other body field |
| Orders.OrderItemParamsLayout | src/controllers/orders.ts:34-40 | item i's parameters sit at positions 5i..5i+4: order id, product, quantity, price, caller, with the same order id for every item |
| Orders.OrderItemsPlaceholders | src/controllers/orders.ts:34-41 | the item insert for n items uses exactly `$1..$5n`, tuple i holding `$5i+1..$5i+5` |
| Orders.CreateOrderRejected | src/controllers/orders.ts:20-24 | a non-array `orderList` or an invalid item is rejected before any statement: ROLLBACK, `next(err)` and the release |
| Orders.CreateOrderStatements | src/controllers/orders.ts:28-51 | the transaction runs the order insert, then the item insert with `$1..$5n` bound to five values per item, then one cart delete per item bound to its `cartId`, in list order |
| Orders.CreateOrderOutcome | src/controllers/orders.ts:11-60 | the order, its items and the cart deletions commit together or not at all: exactly when the list is valid, the order insert returned a row to read the id from (or there are no items), and none of the n + 4 commands fails; the 201 is sent exactly when it commits |
| Orders.CreateOrderPlan | src/controllers/orders.ts:11-60 | definition of `createOrder`; see Orders.CreateOrderOutcome, Orders.CreateOrderRejected and Orders.CreateOrderStatements |
| Orders.GetOrderBuilderFailure | src/controllers/orders.ts:68-88 | a failed builder makes the trace exactly `next(builder error)`, ROLLBACK, `next(500)` and the release: `next` runs twice |
| Orders.GetOrderPlan | src/controllers/orders.ts:62-105 | definition of `getOrder`: the list-read plan on the caller-scoped query; see Handlers.ReadPlanOutcome and Orders.GetOrderBuilderFailure |
| Orders.UpdateOrderShape | src/controllers/orders.ts:117-163 | the update holds exactly the ten listed fields that are defined, in list order, each under its fixed column; `id` is never set and is the only condition; with no defined field it is rejected |
| Orders.UpdateOrderOutcome | src/controllers/orders.ts:107-173 | `updateOrder` commits exactly when the id is truthy, some listed field is defined and none of BEGIN, UPDATE and COMMIT fails; it answers exactly when it commits; a falsy id gives only ROLLBACK and `next(400)` |
| Orders.UpdateOrderPlan | src/controllers/orders.ts:107-173 | definition of `updateOrder`; see Orders.UpdateOrderOutcome and Orders.UpdateOrderShape |
| Orders.DeleteOrderOutcome | src/controllers/orders.ts:182-188 | only an `undefined` id is rejected, before anything is sent; otherwise the delete commits exactly when none of BEGIN, DELETE and COMMIT fails |
| Orders.DeleteOrderPlan | src/controllers/orders.ts:175-195 | definition of `deleteOrder`; see Orders.DeleteOrderOutcome |
| Users.CreateUserRejected | src/controllers/users.ts:15-17 | a body missing `userName`, `email` or `password` is rejected before BEGIN |
| Users.CreateUserInsert | src/controllers/users.ts:19-25 | an insert is sent only past both checks; it stores the role `customer` and the hash of the password, and takes the other five values from the body |
| Users.CreateUserStatements | src/controllers/users.ts:18-25 | registration sends only the email lookup and the user insert |
| Users.CreateUserIgnoresRole | src/controllers/users.ts:14-25 | a `role` in the request body has no effect on registration |
| Users.CreateUserOutcome | src/controllers/users.ts:11-34 | registration commits exactly when the three fields are present, the lookup does not return exactly one row, and none of the four commands fails; the 201 is sent exactly then |
| Users.CreateUserPlan | src/controllers/users.ts:11-34 | definition of `createUser`; see Users.CreateUserOutcome, Users.CreateUserInsert and Users.CreateUserIgnoresRole |
| Users.StripPasswordIsWithout | src/controllers/users.ts:43-47 | for an object, the password-stripping reduce keeps every other entry, in order |
| Users.PublicUserContents | src/controllers/users.ts:42-47 | a public record has no `password` key, and every other key reads as in the camelCased row |
| Users.GetUserOutcome | src/controllers/users.ts:36-52 | `getUser` answers with the first row without its password exactly when the token has an id and the lookup succeeds and finds a row; otherwise `next` receives a 400 or the database error |
| Users.GetUserPlan | src/controllers/users.ts:36-52 | definition of `getUser`; see Users.GetUserOutcome |
| Users.GetUsersNoPassword | src/controllers/users.ts:150-158 | no listed record carries a password, and every other key of each record is its row's |
| Users.GetUsersPlan | src/controllers/users.ts:137-168 | definition of `getUsers`: the list-read plan on the unscoped query; see Handlers.ReadPlanOutcome and Users.GetUsersNoPassword |
| Users.UpdateUserIgnoresBodyId | src/controllers/users.ts:57-80 | an `id` in the body has no effect: the row updated is always the caller's |
| Users.UpdateUserEmpty | src/controllers/users.ts:65-80 | the update is rejected exactly when none of `userName`, `phoneNumber`, `password` and `role` is defined |
| Users.UpdateUserSetEntry | src/controllers/users.ts:65-80 | every SET entry assigns one of `user_name`, `phone_number`, `password` and `role`, bound to the defined value of the matching field |
| Users.UpdateUserWhere | src/controllers/users.ts:73 | the only condition is `id = $k+1`, bound to the caller's id |
| Users.UpdateUserPassword | src/controllers/users.ts:61-70 | a defined password is written; it is hashed when truthy and stored as sent otherwise |
| Users.UpdateUserRole | src/controllers/users.ts:71 | a defined `role` in the body is written as sent |
| Users.UpdateUserOutcome | src/controllers/users.ts:54-90 | `updateUser` commits exactly when the token has an id, some field is defined, and none of BEGIN, UPDATE and COMMIT fails |
| Users.UpdateUserPlan | src/controllers/users.ts:54-90 | definition of `updateUser`; see Users.UpdateUserOutcome and Users.UpdateUserIgnoresBodyId |
| Users.DeleteUserOutcome | src/controllers/users.ts:92-107 | the only statement deletes by the caller's id; it commits exactly when the token has an id and none of the three commands fails |
| Users.DeleteUserPlan | src/controllers/users.ts:92-107 | definition of `deleteUser`; see Users.DeleteUserOutcome |
| Users.CheckEmailOutcome | src/controllers/users.ts:109-119 | an email is reported available exactly when it is given and the lookup succeeds and finds no row, and reported taken exactly when the lookup finds one or more rows |
| Users.CheckEmailPlan | src/controllers/users.ts:109-119 | definition of `checkEmail`; see Users.CheckEmailOutcome |
| Users.CheckUserOutcome | src/controllers/users.ts:121-135 | the check succeeds exactly when the lookup succeeds, finds a row and `checkPassword` accepts the password; an unknown user and a wrong password give the same error; a rejecting `checkPassword` (for example a body without a password) sends its own error to `next`; a failed lookup sends the database error |
| Users.CheckUserPlan | src/controllers/users.ts:121-135 | definition of `checkUser`, with `checkPassword` (src/utils/bcrypt.ts:9-12) able to reject; see Users.CheckUserOutcome |

## Left out

- Database execution, the connection pool and concurrency. Statements appear
  in the trace as sent commands. Their results (rows, the order id,
  the count) and their failures are parameters.
- `toSnakeCase` is not part of this model: its source file is not among
  the modelled files, so it is an uninterpreted parameter, and it is not
  assumed to invert `snakeToCamel`. `CaseMapper.CamelToSnake` is only a
  reference conversion for the round-trip lemmas.
- `JSON.parse` (RFC 8259) is a partial-function parameter.
- `hashPassword` and `checkPassword` (bcrypt) are function parameters.
- Users.CreateUserOutcome: a `hashPassword` that rejects after the lookup
  is not modelled; the hash parameter always returns.
- Users.UpdateUserOutcome: a `hashPassword` that rejects after BEGIN is not
  modelled, for the same reason.
- Orders.CreateOrderOutcome: an empty `orderList` sends the item insert as
  `… VALUES ` with no tuple. A database rejects that text, but the model
  only lets a failure come from the `fails` parameter, so with no failure
  it commits.
- A failing `ROLLBACK` in a catch block is not modelled. It would reject
  the handler's promise before `next` runs.
- `checkUser` and `checkEmail` destructure `req.body` and `req.query`
  outside their `try`. A missing body throws there, which is not modelled.
- `Number(totalResult.rows[0].total)` is an integer parameter. An empty
  count result is not modelled.
- JavaScript semantics outside the slice above are not modelled:
  - fractional numbers and `NaN`;
  - the enumeration order of integer-like keys;
  - prototypes and getters;
  - `Object.values` on non-plain objects.
- Template-literal text of arrays and objects is approximated:
  - an array is its elements joined with `,`;
  - an object is the fixed text `[object Object]`.
- The join list and select list that `getCart` and `getOrder` pass to the
  select builder are not modelled. The builder's parameter list does not
  include them.
- The controllers import `buildUpdateQuery` from `utils/query/`. The
  builder modelled is `src/utils/buildUpdateQuery.ts`, taken to be that
  module.
- The other controllers, routing, middleware, authentication tokens,
  file upload, logging, migrations and the Express error handler are not
  part of this model.
