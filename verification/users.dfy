/**
 * The users controller: registration, reading one's own record and the
 * user list with the password column removed, updating and deleting
 * one's own record, and the email-availability and password checks.
 * Password hashing and comparison are parameters.
 */
module Users {
  import opened Wrappers
  import opened Js
  import opened SqlText
  import opened Errors
  import opened Transaction
  import opened Handlers
  import opened CaseMapper
  import UpdateQuery

  const ExistEmail: Error := HttpError(400, "Bad request: exist email")
  const UserIdRequired: Error := HttpError(400, "Bad request: required id")
  const EmailRequired: Error := HttpError(400, "Bad request: required email")
  const EmailTaken: Error := HttpError(400, "Not available email")
  const WrongPassword: Error := HttpError(400, "Wrong Password")

  /** `SELECT * FROM users WHERE email = $1` */
  const SelectByEmail: Text := [Lit("SELECT * FROM users WHERE email = "), Ph(1)]

  /** `SELECT * FROM users WHERE id = $1` */
  const SelectById: Text := [Lit("SELECT * FROM users WHERE id = "), Ph(1)]

  /** `DELETE FROM users WHERE id = $1` */
  const DeleteById: Text := [Lit("DELETE FROM users WHERE id = "), Ph(1)]

  /** The registration insert, seven placeholders in column order. */
  const InsertUser: Text :=
    [Lit("INSERT INTO users (user_name, email, password, phone_number, gender, role, kakao_id) VALUES ("),
     Ph(1), Lit(", "), Ph(2), Lit(", "), Ph(3), Lit(", "), Ph(4), Lit(", "), Ph(5), Lit(", "), Ph(6), Lit(", "), Ph(7),
     Lit(") RETURNING *")]

  // ---------------------------------------------------------------------------
  // createUser
  // ---------------------------------------------------------------------------

  /** `userName`, `email` and `password` are all truthy. */
  predicate Registrable(body: Fields) {
    Truthy(Get(body, "userName")) && Truthy(Get(body, "email")) && Truthy(Get(body, "password"))
  }

  /** `[userName, email, hashedPassword, phoneNumber, gender, 'customer', kakaoId]`, with `hashPassword` as `hash` (it resolves to a string). */
  function InsertParams(body: Fields, hash: Value -> string): seq<Value> {
    [Get(body, "userName"), Get(body, "email"), Str(hash(Get(body, "password"))), Get(body, "phoneNumber"),
     Get(body, "gender"), Str("customer"), Get(body, "kakaoId")]
  }

  /**
   * `createUser`. `existing` is the number of rows the email lookup returns.
   * The duplicate check throws only when exactly one row comes back.
   */
  function CreateUserPlan(body: Fields, hash: Value -> string, existing: nat): seq<Step> {
    if !Registrable(body) then [Throw(BadRequest)]
    else
      var select := Stmt(SelectByEmail, [Get(body, "email")]);
      if existing == 1 then [Send(Begin), Send(select), Throw(ExistEmail)]
      else Transactional([select, Stmt(InsertUser, InsertParams(body, hash))], 201, Message("Success register"))
  }

  /** A body missing any of the three required fields is rejected before BEGIN. */
  lemma CreateUserRejected(body: Fields, hash: Value -> string, existing: nat, fails: set<nat>)
    requires !Registrable(body)
    ensures Handle(CreateUserPlan(body, hash, existing), fails) == [Sent(Rollback), NextCalled(BadRequest), Released]
  {
    ThrowFirst(BadRequest, [], fails);
    assert [Throw(BadRequest)] + [] == [Throw(BadRequest)];
  }

  /**
   * Whatever the body says, the inserted row has the role `customer` and
   * stores the hash of the password, never the client's own value for
   * either slot; the other five values come from the body.
   */
  lemma CreateUserInsert(body: Fields, hash: Value -> string, existing: nat, ps: seq<Value>)
    requires Send(Stmt(InsertUser, ps)) in CreateUserPlan(body, hash, existing)
    ensures Registrable(body) && existing != 1
    ensures ps == [Get(body, "userName"), Get(body, "email"), Str(hash(Get(body, "password"))),
                   Get(body, "phoneNumber"), Get(body, "gender"), Str("customer"), Get(body, "kakaoId")]
  {
    var c := Stmt(InsertUser, ps);
    CreateUserStatements(body, hash, existing, c);
    assert c.sql != SelectByEmail by {
      assert |c.sql| == 15 && |SelectByEmail| == 2;
    }
  }

  /** The statements registration sends: the email lookup, and the insert only past the checks. */
  lemma CreateUserStatements(body: Fields, hash: Value -> string, existing: nat, c: Cmd)
    requires Send(c) in CreateUserPlan(body, hash, existing) && c.Stmt?
    ensures Registrable(body)
    ensures c == Stmt(SelectByEmail, [Get(body, "email")]) ||
            (existing != 1 && c == Stmt(InsertUser, InsertParams(body, hash)))
  {
    var select := Stmt(SelectByEmail, [Get(body, "email")]);
    var insert := Stmt(InsertUser, InsertParams(body, hash));
    if Registrable(body) && existing != 1 {
      TransactionalStmt([select, insert], 201, Message("Success register"), c);
    }
  }

  /** A `role` in the request body has no effect on registration. */
  lemma CreateUserIgnoresRole(body: Fields, hash: Value -> string, existing: nat, role: Value)
    ensures CreateUserPlan(Assign(body, "role", role), hash, existing) == CreateUserPlan(body, hash, existing)
  {
    var b := Assign(body, "role", role);
    assert |"userName"| != |"role"| && |"email"| != |"role"| && |"password"| != |"role"|;
    assert |"phoneNumber"| != |"role"| && |"gender"| != |"role"| && |"kakaoId"| != |"role"|;
    assert InsertParams(b, hash) == InsertParams(body, hash);
  }

  /**
   * Registration commits exactly when the three fields are present, the
   * email lookup does not return exactly one row, and none of BEGIN, the
   * lookup, the insert and COMMIT fails; the 201 is sent exactly then.
   */
  lemma CreateUserOutcome(body: Fields, hash: Value -> string, existing: nat, fails: set<nat>)
    ensures var t := Handle(CreateUserPlan(body, hash, existing), fails);
      && (Committed(t) <==> Registrable(body) && existing != 1 && !FailsBefore(fails, 0, 4))
      && (Committed(t) <==> Responded(201, Message("Success register")) in t)
  {
    var plan := CreateUserPlan(body, hash, existing);
    var t := Handle(plan, fails);
    if !Registrable(body) {
      CreateUserRejected(body, hash, existing, fails);
    } else if existing == 1 {
      assert plan == [Send(Begin), Send(Stmt(SelectByEmail, [Get(body, "email")])), Throw(ExistEmail)];
      HandleNoCommit(plan, fails);
      HandleRespondFromPlan(plan, fails, 201, Message("Success register"));
    } else {
      var stmts := [Stmt(SelectByEmail, [Get(body, "email")]), Stmt(InsertUser, InsertParams(body, hash))];
      TransactionalAloneOutcome(stmts, 201, Message("Success register"), fails);
    }
  }

  // ---------------------------------------------------------------------------
  // Stripping the password
  // ---------------------------------------------------------------------------

  /**
   * `Object.entries(obj).reduce((acc, [key, value]) => key === 'password' ? acc : Object.assign(acc, { [key]: value }), {})`,
   * written as a recursion on the last entry.
   */
  function StripPassword(f: Fields): (r: Fields)
    ensures !HasKey(r, "password")
    decreases |f|
  {
    if |f| == 0 then []
    else
      var acc := StripPassword(f[..|f| - 1]);
      if f[|f| - 1].0 == "password" then acc else Assign(acc, f[|f| - 1].0, f[|f| - 1].1)
  }

  /** Removing keys from an object with one more entry at the end. */
  lemma {:induction false} WithoutSnoc(f: Fields, p: (string, Value), keys: set<string>)
    ensures Without(f + [p], keys) == Without(f, keys) + (if p.0 in keys then [] else [p])
    decreases |f|
  {
    if |f| > 0 {
      assert (f + [p])[1..] == f[1..] + [p];
      WithoutSnoc(f[1..], p, keys);
    } else {
      assert f + [p] == [p];
    }
  }

  /** Removing keys from an object, split before its last entry. */
  lemma WithoutLast(f: Fields, keys: set<string>)
    requires |f| > 0
    ensures Without(f, keys) == Without(f[..|f| - 1], keys) + (if f[|f| - 1].0 in keys then [] else [f[|f| - 1]])
  {
    assert f == f[..|f| - 1] + [f[|f| - 1]];
    WithoutSnoc(f[..|f| - 1], f[|f| - 1], keys);
  }

  /** A key the object does not have is not a key of the object with some keys removed. */
  lemma WithoutAbsent(f: Fields, keys: set<string>, k: string)
    requires !HasKey(f, k)
    ensures !HasKey(Without(f, keys), k)
  {
    var w := Without(f, keys);
    forall i | 0 <= i < |w| ensures Keys(w)[i] != k {
      assert w[i] in f;
      var j :| 0 <= j < |f| && f[j] == w[i];
      assert Keys(f)[j] == w[i].0;
    }
  }

  /** The prefix of an object keeps distinct keys, and does not have the last key. */
  lemma DistinctLast(f: Fields)
    requires DistinctKeys(f) && |f| > 0
    ensures DistinctKeys(f[..|f| - 1])
    ensures !HasKey(f[..|f| - 1], f[|f| - 1].0)
  {
    var p := f[..|f| - 1];
    assert forall j :: 0 <= j < |p| ==> p[j] == f[j];
    assert forall j :: 0 <= j < |p| ==> Keys(p)[j] != f[|f| - 1].0;
  }

  /** Stripping an object with one more entry at the end. */
  lemma StripPasswordSnoc(f: Fields)
    requires |f| > 0
    ensures StripPassword(f) == if f[|f| - 1].0 == "password" then StripPassword(f[..|f| - 1])
                                else Assign(StripPassword(f[..|f| - 1]), f[|f| - 1].0, f[|f| - 1].1)
  {
  }

  /** For an object (distinct keys), stripping is `Without(f, {"password"})`: every other entry, in order. */
  lemma {:induction false} StripPasswordIsWithout(f: Fields)
    requires DistinctKeys(f)
    ensures StripPassword(f) == Without(f, {"password"})
    decreases |f|
  {
    if |f| > 0 {
      var p, last := f[..|f| - 1], f[|f| - 1];
      DistinctLast(f);
      StripPasswordIsWithout(p);
      StripPasswordSnoc(f);
      WithoutLast(f, {"password"});
      if last.0 != "password" {
        WithoutAbsent(p, {"password"}, last.0);
      }
    }
  }

  /** The record sent back for a database row: re-keyed to camelCase, password removed. */
  function PublicUser(row: Fields): Fields {
    StripPassword(Rekey(row))
  }

  /**
   * A public record never has a `password` key, and every other key reads
   * exactly as it does in the re-keyed row.
   */
  lemma PublicUserContents(row: Fields, k: string)
    ensures !HasKey(PublicUser(row), "password")
    ensures k != "password" ==> Get(PublicUser(row), k) == Get(Rekey(row), k)
    ensures PublicUser(row) == Without(Rekey(row), {"password"})
  {
    RekeyDistinct(row);
    StripPasswordIsWithout(Rekey(row));
    GetWithout(Rekey(row), {"password"}, k);
  }

  // ---------------------------------------------------------------------------
  // getUser, getUsers
  // ---------------------------------------------------------------------------

  /** `getUser`: reads the caller's own row; `rows` is what the lookup returns. */
  function GetUserPlan(caller: Caller, rows: seq<Fields>): seq<Step> {
    if !Truthy(caller.id) then [Throw(BadRequest)]
    else if |rows| == 0 then [Send(Stmt(SelectById, [caller.id])), Throw(BadRequest)]
    else [Send(Stmt(SelectById, [caller.id])), Respond(201, Obj([("data", Obj(PublicUser(rows[0])))]))]
  }

  /**
   * `getUser` answers with the first row, without its password, exactly
   * when the token carries an id, the lookup succeeds and finds a row;
   * otherwise `next` receives a 400 or the database error.
   */
  lemma GetUserOutcome(caller: Caller, rows: seq<Fields>, fails: set<nat>)
    ensures var t := HandleUnpooled(GetUserPlan(caller, rows), fails);
      && (Truthy(caller.id) && |rows| > 0 && 0 !in fails ==>
            t == [Sent(Stmt(SelectById, [caller.id])), Responded(201, Obj([("data", Obj(PublicUser(rows[0])))]))])
      && (!Truthy(caller.id) ==> t == [NextCalled(BadRequest)])
      && (Truthy(caller.id) && 0 in fails ==> t == [Sent(Stmt(SelectById, [caller.id])), NextCalled(DbError)])
      && (Truthy(caller.id) && |rows| == 0 && 0 !in fails ==>
            t == [Sent(Stmt(SelectById, [caller.id])), NextCalled(BadRequest)])
  {
    if Truthy(caller.id) {
      if |rows| == 0 {
        UnpooledSendThrow(Stmt(SelectById, [caller.id]), BadRequest, fails);
      } else {
        UnpooledSendRespond(Stmt(SelectById, [caller.id]), 201, Obj([("data", Obj(PublicUser(rows[0])))]), fails);
      }
    }
  }

  /** The listed records, each re-keyed and without its password. */
  function PublicUsers(rows: seq<Fields>): (r: Value)
    ensures r.Arr? && |r.items| == |rows|
  {
    Arr(seq(|rows|, i requires 0 <= i < |rows| => Obj(PublicUser(rows[i]))))
  }

  /** `getUsers`: the shared list plan on `users`, without scoping to the caller. */
  function GetUsersPlan(q: Fields, snake: string -> string, rows: seq<Fields>, total: int): seq<Step> {
    ReadPlan(q, "users", snake, PublicUsers(rows), total)
  }

  /** No listed record carries a password, and every other key of each record is its row's. */
  lemma GetUsersNoPassword(rows: seq<Fields>, i: nat, k: string)
    requires i < |rows|
    ensures PublicUsers(rows).items[i].Obj?
    ensures !HasKey(PublicUsers(rows).items[i].fields, "password")
    ensures k != "password" ==> Get(PublicUsers(rows).items[i].fields, k) == Get(Rekey(rows[i]), k)
  {
    PublicUserContents(rows[i], k);
  }

  // ---------------------------------------------------------------------------
  // updateUser
  // ---------------------------------------------------------------------------

  /** The password written: `body.password` is replaced by its hash when it is truthy. */
  function StoredPassword(body: Fields, hash: Value -> string): (v: Value)
    ensures Truthy(Get(body, "password")) ==> v == Str(hash(Get(body, "password")))
    ensures !Truthy(Get(body, "password")) ==> v == Get(body, "password")
  {
    var pw := Get(body, "password");
    if Truthy(pw) then Str(hash(pw)) else pw
  }

  /** `{ userName, phoneNumber, password, role }` read from the body, possibly `undefined`. */
  function UserData(body: Fields, hash: Value -> string): Fields {
    [("userName", Get(body, "userName")), ("phoneNumber", Get(body, "phoneNumber")),
     ("password", StoredPassword(body, hash)), ("role", Get(body, "role"))]
  }

  const UserFieldMap: map<string, string> :=
    map["userName" := "user_name", "phoneNumber" := "phone_number", "password" := "password", "role" := "role"]

  /** The statement `updateUser` builds; its only condition is the caller's id. */
  function UserUpdate(caller: Caller, body: Fields, hash: Value -> string): Result<UpdateQuery.UpdateStatement, Error> {
    UpdateQuery.BuildUpdateQuery("users", UserData(body, hash), [("id", caller.id)], UserFieldMap)
  }

  /** `updateUser` */
  function UpdateUserPlan(caller: Caller, body: Fields, hash: Value -> string): seq<Step> {
    if !Truthy(caller.id) then [Throw(UserIdRequired)]
    else
      match UserUpdate(caller, body, hash)
      case Err(e) => [Send(Begin), Throw(e)]
      case Ok(u) => Transactional([Stmt(u.Query(), u.values)], 201, Message("Edit success"))
  }

  /** The fields read for an update do not include `id`. */
  lemma UserDataIgnoresId(body: Fields, hash: Value -> string, id: Value)
    ensures UserData(Assign(body, "id", id), hash) == UserData(body, hash)
  {
    IdOther(body, id, "userName");
    IdOther(body, id, "phoneNumber");
    IdOther(body, id, "password");
    IdOther(body, id, "role");
  }

  /** Assigning `id` leaves a key of another length as it was. */
  lemma IdOther(body: Fields, id: Value, k: string)
    requires |k| != 2
    ensures Get(Assign(body, "id", id), k) == Get(body, k)
  {
    assert k != "id";
  }

  /** An `id` in the body has no effect: the row updated is always the caller's. */
  lemma UpdateUserIgnoresBodyId(caller: Caller, body: Fields, hash: Value -> string, id: Value)
    ensures UpdateUserPlan(caller, Assign(body, "id", id), hash) == UpdateUserPlan(caller, body, hash)
  {
    UserDataIgnoresId(body, hash, id);
    assert UserUpdate(caller, Assign(body, "id", id), hash) == UserUpdate(caller, body, hash);
  }

  /** Equal assignments name the same column and placeholder. */
  lemma AssignmentInjective(a: string, n: nat, b: string, m: nat)
    requires UpdateQuery.Assignment(a, n) == UpdateQuery.Assignment(b, m)
    ensures a == b && n == m
  {
    assert (a + " = ")[..|a|] == a;
    assert (b + " = ")[..|b|] == b;
  }

  /** Looking up each field in the field map. */
  lemma UserFieldMapLookups()
    ensures UpdateQuery.Column("userName", UserFieldMap) == "user_name"
    ensures UpdateQuery.Column("phoneNumber", UserFieldMap) == "phone_number"
    ensures UpdateQuery.Column("password", UserFieldMap) == "password"
    ensures UpdateQuery.Column("role", UserFieldMap) == "role"
    ensures UpdateQuery.Column("id", UserFieldMap) == "id"
  {
    assert |"userName"| == 8 && |"phoneNumber"| == 11 && |"password"| == 8 && |"role"| == 4 && |"id"| == 2;
    assert "userName" != "password" by {
      assert "userName"[0] != "password"[0];
    }
    assert "id" !in UserFieldMap;
  }

  /** A defined field of `UserData` is written: some SET entry assigns its column, bound to its value. */
  lemma UpdateUserSetsDefined(caller: Caller, body: Fields, hash: Value -> string, i: nat)
    requires i < 4
    requires UserUpdate(caller, body, hash).Ok?
    requires UserData(body, hash)[i].1 != Undefined
    ensures var data := UserData(body, hash);
      var u := UserUpdate(caller, body, hash).value;
      var column := UpdateQuery.Column(data[i].0, UserFieldMap);
      exists j :: 0 <= j < |u.setFields| && u.setFields[j] == UpdateQuery.Assignment(column, j + 1) && u.values[j] == data[i].1
  {
    var data := UserData(body, hash);
    var kept := UpdateQuery.Defined(data);
    var u := UpdateQuery.Statement("users", kept, [("id", caller.id)], UserFieldMap);
    assert UserUpdate(caller, body, hash).value == u;
    UpdateQuery.DefinedKeeps(data, i);
    var j :| 0 <= j < |kept| && kept[j] == data[i];
    assert u.setFields[j] == UpdateQuery.Assignment(UpdateQuery.Column(data[i].0, UserFieldMap), j + 1);
  }

  /** The column each entry of `UserData` is written to, with the value it carries. */
  predicate UserColumn(col: string, v: Value, body: Fields, hash: Value -> string) {
    || (col == "user_name" && v == Get(body, "userName"))
    || (col == "phone_number" && v == Get(body, "phoneNumber"))
    || (col == "password" && v == StoredPassword(body, hash))
    || (col == "role" && v == Get(body, "role"))
  }

  /** Every entry of `UserData` maps to one of the four columns, carrying the matching value. */
  lemma UserDataColumns(body: Fields, hash: Value -> string, e: (string, Value))
    requires e in UserData(body, hash)
    ensures UserColumn(UpdateQuery.Column(e.0, UserFieldMap), e.1, body, hash)
  {
    var data := UserData(body, hash);
    UserFieldMapLookups();
    assert e == data[0] || e == data[1] || e == data[2] || e == data[3];
  }

  /** An assignment `col = $n` for one of the four columns says which field it writes. */
  lemma UserAssignment(col: string, v: Value, body: Fields, hash: Value -> string, n: nat)
    requires UserColumn(col, v, body, hash)
    ensures var a := UpdateQuery.Assignment(col, n);
      && (a == UpdateQuery.Assignment("user_name", n) ==> v == Get(body, "userName"))
      && (a == UpdateQuery.Assignment("phone_number", n) ==> v == Get(body, "phoneNumber"))
      && (a == UpdateQuery.Assignment("password", n) ==> v == StoredPassword(body, hash))
      && (a == UpdateQuery.Assignment("role", n) ==> v == Get(body, "role"))
  {
    assert |"user_name"| == 9 && |"phone_number"| == 12 && |"password"| == 8 && |"role"| == 4;
    var a := UpdateQuery.Assignment(col, n);
    if a == UpdateQuery.Assignment("user_name", n) { AssignmentInjective(col, n, "user_name", n); }
    if a == UpdateQuery.Assignment("phone_number", n) { AssignmentInjective(col, n, "phone_number", n); }
    if a == UpdateQuery.Assignment("password", n) { AssignmentInjective(col, n, "password", n); }
    if a == UpdateQuery.Assignment("role", n) { AssignmentInjective(col, n, "role", n); }
  }

  /**
   * Nothing else is written: every SET entry assigns one of `user_name`,
   * `phone_number`, `password`, `role`, bound to the defined value of the
   * matching field.
   */
  lemma UpdateUserSetEntry(caller: Caller, body: Fields, hash: Value -> string, j: nat)
    requires UserUpdate(caller, body, hash).Ok?
    requires j < |UserUpdate(caller, body, hash).value.setFields|
    ensures var u := UserUpdate(caller, body, hash).value;
      var v := u.values[j];
      && v != Undefined
      && (u.setFields[j] == UpdateQuery.Assignment("user_name", j + 1) ==> v == Get(body, "userName"))
      && (u.setFields[j] == UpdateQuery.Assignment("phone_number", j + 1) ==> v == Get(body, "phoneNumber"))
      && (u.setFields[j] == UpdateQuery.Assignment("password", j + 1) ==> v == StoredPassword(body, hash))
      && (u.setFields[j] == UpdateQuery.Assignment("role", j + 1) ==> v == Get(body, "role"))
      && (u.setFields[j] == UpdateQuery.Assignment("user_name", j + 1) ||
          u.setFields[j] == UpdateQuery.Assignment("phone_number", j + 1) ||
          u.setFields[j] == UpdateQuery.Assignment("password", j + 1) ||
          u.setFields[j] == UpdateQuery.Assignment("role", j + 1))
  {
    var data := UserData(body, hash);
    var kept := UpdateQuery.Defined(data);
    var u := UpdateQuery.Statement("users", kept, [("id", caller.id)], UserFieldMap);
    assert UserUpdate(caller, body, hash).value == u;
    UpdateQuery.DefinedFrom(data, j);
    var col := UpdateQuery.Column(kept[j].0, UserFieldMap);
    assert u.setFields[j] == UpdateQuery.Assignment(col, j + 1);
    assert u.values[j] == kept[j].1;
    UserDataColumns(body, hash, kept[j]);
    UserAssignment(col, kept[j].1, body, hash, j + 1);
  }

  /**
   * The update is rejected with "No fields to update." exactly when none of
   * `userName`, `phoneNumber`, `password`, `role` is defined in the body.
   */
  lemma UpdateUserEmpty(caller: Caller, body: Fields, hash: Value -> string)
    ensures var r := UserUpdate(caller, body, hash);
      && (r.Err? <==> Get(body, "userName") == Undefined && Get(body, "phoneNumber") == Undefined &&
                      Get(body, "password") == Undefined && Get(body, "role") == Undefined)
      && (r.Err? ==> r.error == UpdateQuery.NoFields)
  {
    var data := UserData(body, hash);
    assert data[0].1 == Get(body, "userName") && data[1].1 == Get(body, "phoneNumber") && data[3].1 == Get(body, "role");
    assert data[2].1 == Undefined <==> Get(body, "password") == Undefined;
    assert UpdateQuery.Defined(data) == [] <==> forall j :: 0 <= j < 4 ==> data[j].1 == Undefined;
  }

  /** The only condition of the update is `id = $k+1`, bound to the caller's id. */
  lemma UpdateUserWhere(caller: Caller, body: Fields, hash: Value -> string)
    requires UserUpdate(caller, body, hash).Ok?
    ensures var u := UserUpdate(caller, body, hash).value;
      var k := |u.setFields|;
      u.whereClauses == [UpdateQuery.Assignment("id", k + 1)] && u.values[k] == caller.id
  {
    var u := UserUpdate(caller, body, hash).value;
    assert "id" !in UserFieldMap;
    assert UpdateQuery.Column("id", UserFieldMap) == "id";
    assert |u.whereClauses| == 1;
  }

  /**
   * A truthy password is stored hashed; a defined but falsy one (such as
   * the empty string) is stored as sent, without hashing.
   */
  lemma UpdateUserPassword(caller: Caller, body: Fields, hash: Value -> string)
    requires Get(body, "password") != Undefined
    ensures var r := UserUpdate(caller, body, hash);
      var pw := Get(body, "password");
      && r.Ok?
      && exists j :: 0 <= j < |r.value.setFields| && r.value.setFields[j] == UpdateQuery.Assignment("password", j + 1) &&
                     r.value.values[j] == (if Truthy(pw) then Str(hash(pw)) else pw)
  {
    UpdateUserEmpty(caller, body, hash);
    assert UserData(body, hash)[2] == ("password", StoredPassword(body, hash));
    UserFieldMapLookups();
    UpdateUserSetsDefined(caller, body, hash, 2);
  }

  /** A `role` in the body is written as sent: the caller can change the role of their own record. */
  lemma UpdateUserRole(caller: Caller, body: Fields, hash: Value -> string)
    requires Get(body, "role") != Undefined
    ensures var r := UserUpdate(caller, body, hash);
      && r.Ok?
      && exists j :: 0 <= j < |r.value.setFields| && r.value.setFields[j] == UpdateQuery.Assignment("role", j + 1) &&
                     r.value.values[j] == Get(body, "role")
  {
    UpdateUserEmpty(caller, body, hash);
    assert UserData(body, hash)[3] == ("role", Get(body, "role"));
    UserFieldMapLookups();
    UpdateUserSetsDefined(caller, body, hash, 3);
  }

  /**
   * `updateUser` commits exactly when the token carries an id, some field
   * is defined, and none of BEGIN, the update and COMMIT fails.
   */
  lemma UpdateUserOutcome(caller: Caller, body: Fields, hash: Value -> string, fails: set<nat>)
    ensures var t := Handle(UpdateUserPlan(caller, body, hash), fails);
      && (Committed(t) <==> Truthy(caller.id) && UserUpdate(caller, body, hash).Ok? && !FailsBefore(fails, 0, 3))
      && (!Truthy(caller.id) ==> t == [Sent(Rollback), NextCalled(UserIdRequired), Released])
  {
    var plan := UpdateUserPlan(caller, body, hash);
    if !Truthy(caller.id) {
      ThrowFirst(UserIdRequired, [], fails);
      assert [Throw(UserIdRequired)] + [] == plan;
    } else {
      match UserUpdate(caller, body, hash)
      case Err(e) =>
        assert plan == [Send(Begin), Throw(e)];
        HandleNoCommit(plan, fails);
      case Ok(u) =>
        TransactionalAloneOutcome([Stmt(u.Query(), u.values)], 201, Message("Edit success"), fails);
    }
  }

  // ---------------------------------------------------------------------------
  // deleteUser
  // ---------------------------------------------------------------------------

  /** `deleteUser`: deletes the caller's own row. */
  function DeleteUserPlan(caller: Caller): seq<Step> {
    if !Truthy(caller.id) then [Throw(UserIdRequired)]
    else Transactional([Stmt(DeleteById, [caller.id])], 201, Message("Delete success"))
  }

  /**
   * The only statement deletes by the caller's id, and it is committed
   * exactly when the token carries an id and none of BEGIN, DELETE and
   * COMMIT fails.
   */
  lemma DeleteUserOutcome(caller: Caller, fails: set<nat>, c: Cmd)
    ensures Send(c) in DeleteUserPlan(caller) && c.Stmt? ==> c == Stmt(DeleteById, [caller.id])
    ensures Committed(Handle(DeleteUserPlan(caller), fails)) <==> Truthy(caller.id) && !FailsBefore(fails, 0, 3)
  {
    var plan := DeleteUserPlan(caller);
    if !Truthy(caller.id) {
      ThrowFirst(UserIdRequired, [], fails);
      assert [Throw(UserIdRequired)] + [] == plan;
    } else {
      var stmts := [Stmt(DeleteById, [caller.id])];
      assert plan == [Send(Begin), Send(stmts[0]), Send(Commit), Respond(201, Message("Delete success"))];
      TransactionalAloneOutcome(stmts, 201, Message("Delete success"), fails);
    }
  }

  // ---------------------------------------------------------------------------
  // checkEmail, checkUser
  // ---------------------------------------------------------------------------

  /** `checkEmail`: `count` is the number of rows with the queried email. */
  function CheckEmailPlan(q: Fields, count: nat): seq<Step> {
    var email := Get(q, "email");
    if !Truthy(email) then [Throw(EmailRequired)]
    else if count == 0 then [Send(Stmt(SelectByEmail, [email])), Respond(201, Message("Available email"))]
    else [Send(Stmt(SelectByEmail, [email])), Throw(EmailTaken)]
  }

  /**
   * An email is reported available exactly when it is given, the lookup
   * succeeds and finds no row, and reported taken exactly when the lookup
   * succeeds and finds one or more.
   */
  lemma CheckEmailOutcome(q: Fields, count: nat, fails: set<nat>)
    ensures var t := HandleUnpooled(CheckEmailPlan(q, count), fails);
      var email := Get(q, "email");
      && (Responded(201, Message("Available email")) in t <==> Truthy(email) && count == 0 && 0 !in fails)
      && (NextCalled(EmailTaken) in t <==> Truthy(email) && count > 0 && 0 !in fails)
      && (!Truthy(email) ==> t == [NextCalled(EmailRequired)])
  {
    var email := Get(q, "email");
    assert EmailTaken != EmailRequired && EmailTaken != DbError;
    if Truthy(email) {
      if count == 0 {
        UnpooledSendRespond(Stmt(SelectByEmail, [email]), 201, Message("Available email"), fails);
      } else {
        UnpooledSendThrow(Stmt(SelectByEmail, [email]), EmailTaken, fails);
      }
    }
  }

  /**
   * `checkUser`: looks the caller up and compares the body's password with
   * the stored one through `compare` (`checkPassword`). The compare can
   * reject, as `bcrypt.compare` does for a password that is missing or not
   * a string; its error then goes to `next` in place of `Wrong Password`.
   */
  function CheckUserPlan(caller: Caller, body: Fields, rows: seq<Fields>,
                         compare: (Value, Value) -> Result<bool, Error>): seq<Step> {
    var select := Stmt(SelectById, [caller.id]);
    if |rows| == 0 then [Send(select), Throw(WrongPassword)]
    else
      match compare(Get(body, "password"), Get(rows[0], "password"))
      case Err(e) => [Send(select), Throw(e)]
      case Ok(isCorrect) =>
        if isCorrect then [Send(select), Respond(201, Message("Match success"))]
        else [Send(select), Throw(WrongPassword)]
  }

  /**
   * The check succeeds exactly when the lookup succeeds, finds a row, and
   * the compare accepts the password; an unknown user and a wrong password
   * give the same error, and a rejected compare passes its own error on.
   */
  lemma CheckUserOutcome(caller: Caller, body: Fields, rows: seq<Fields>,
                         compare: (Value, Value) -> Result<bool, Error>, fails: set<nat>)
    ensures var t := HandleUnpooled(CheckUserPlan(caller, body, rows, compare), fails);
      var select := Sent(Stmt(SelectById, [caller.id]));
      var verdict := if |rows| > 0 then compare(Get(body, "password"), Get(rows[0], "password")) else Ok(false);
      && (Responded(201, Message("Match success")) in t <==> 0 !in fails && |rows| > 0 && verdict == Ok(true))
      && (0 in fails ==> t == [select, NextCalled(DbError)])
      && (0 !in fails && verdict == Ok(false) ==> t == [select, NextCalled(WrongPassword)])
      && (0 !in fails && verdict.Err? ==> t == [select, NextCalled(verdict.error)])
  {
    var select := Stmt(SelectById, [caller.id]);
    if |rows| == 0 {
      UnpooledSendThrow(select, WrongPassword, fails);
    } else {
      match compare(Get(body, "password"), Get(rows[0], "password"))
      case Err(e) =>
        UnpooledSendThrow(select, e, fails);
      case Ok(isCorrect) =>
        if isCorrect {
          UnpooledSendRespond(select, 201, Message("Match success"), fails);
        } else {
          UnpooledSendThrow(select, WrongPassword, fails);
        }
    }
  }
}
