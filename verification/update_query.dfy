/**
 * The update builder, `buildUpdateQuery({ table, data, where, fieldMap })`:
 * one `column = $n` per defined data entry, then the `where` entries with
 * their placeholders continuing the same count.
 */
module UpdateQuery {
  import opened Wrappers
  import opened Js
  import opened SqlText
  import opened Errors

  const NoFields := PlainError("No fields to update.")

  /** `key in fieldMap ? fieldMap[key] : key` */
  function Column(key: string, fieldMap: map<string, string>): string {
    if key in fieldMap then fieldMap[key] else key
  }

  /** The entries whose value is not `undefined`, in order. */
  function Defined(data: Fields): (r: Fields)
    ensures |r| <= |data|
    ensures forall i :: 0 <= i < |r| ==> r[i].1 != Undefined
    ensures r == [] <==> forall j :: 0 <= j < |data| ==> data[j].1 == Undefined
  {
    if |data| == 0 then []
    else
      var rest := Defined(data[1..]);
      assert forall j :: 1 <= j < |data| ==> data[j] == data[1..][j - 1];
      if data[0].1 == Undefined then rest else [data[0]] + rest
  }

  /** Every kept entry is an entry of the data. */
  lemma {:induction false} DefinedFrom(data: Fields, k: nat)
    requires k < |Defined(data)|
    ensures Defined(data)[k] in data
    decreases |data|
  {
    var rest := Defined(data[1..]);
    if data[0].1 == Undefined {
      DefinedFrom(data[1..], k);
    } else if k > 0 {
      assert Defined(data)[k] == rest[k - 1];
      DefinedFrom(data[1..], k - 1);
    }
  }

  /** Every defined entry of the data is kept. */
  lemma {:induction false} DefinedKeeps(data: Fields, j: nat)
    requires j < |data| && data[j].1 != Undefined
    ensures data[j] in Defined(data)
    decreases |data|
  {
    if j > 0 {
      DefinedKeeps(data[1..], j - 1);
      assert data[1..][j - 1] == data[j];
    }
  }

  function Values(f: Fields): (vs: seq<Value>)
    ensures |vs| == |f|
    ensures forall i :: 0 <= i < |f| ==> vs[i] == f[i].1
  {
    seq(|f|, i requires 0 <= i < |f| => f[i].1)
  }

  /** `column = $n` */
  function Assignment(column: string, n: nat): Text {
    [Lit(column + " = "), Ph(n)]
  }

  /** `column = $n` for each entry, its column mapped through `fieldMap`, numbered from `lo`. */
  function Assignments(f: Fields, fieldMap: map<string, string>, lo: nat): (r: seq<Text>)
    ensures |r| == |f|
    ensures forall i :: 0 <= i < |f| ==> r[i] == Assignment(Column(f[i].0, fieldMap), lo + i)
  {
    seq(|f|, i requires 0 <= i < |f| => Assignment(Column(f[i].0, fieldMap), lo + i))
  }

  /** The statement: the SET list and the WHERE list are kept apart so that each can be stated on its own. */
  datatype UpdateStatement = UpdateStatement(table: string, setFields: seq<Text>, whereClauses: seq<Text>, values: seq<Value>) {
    /** `UPDATE ${table} SET ${setFields.join(', ')} WHERE ${whereClauses.join(' AND ')}` */
    function Query(): Text {
      [Lit("UPDATE " + table + " SET ")] + JoinPieces(setFields, [Lit(", ")]) +
      [Lit(" WHERE ")] + JoinPieces(whereClauses, [Lit(" AND ")])
    }
  }

  /** The statement for the kept entries and the conditions: placeholders $1..$k for the SET list, then $k+1.. for the WHERE list. */
  function Statement(table: string, kept: Fields, where: Fields, fieldMap: map<string, string>): (u: UpdateStatement)
    ensures u.table == table
    ensures |u.setFields| == |kept| && |u.whereClauses| == |where| && |u.values| == |kept| + |where|
    ensures forall i :: 0 <= i < |kept| ==>
      u.setFields[i] == Assignment(Column(kept[i].0, fieldMap), i + 1) && u.values[i] == kept[i].1
    ensures forall j :: 0 <= j < |where| ==>
      u.whereClauses[j] == Assignment(Column(where[j].0, fieldMap), |kept| + 1 + j) && u.values[|kept| + j] == where[j].1
  {
    UpdateStatement(table, Assignments(kept, fieldMap, 1), Assignments(where, fieldMap, |kept| + 1),
                    Values(kept) + Values(where))
  }

  /** `buildUpdateQuery({ table, data, where, fieldMap })`; an omitted `fieldMap` is the empty map. */
  function BuildUpdateQuery(table: string, data: Fields, where: Fields, fieldMap: map<string, string>): (r: Result<UpdateStatement, Error>)
    ensures r.Err? <==> Defined(data) == []
    ensures r.Err? ==> r.error == NoFields
    ensures r.Ok? ==> r.value == Statement(table, Defined(data), where, fieldMap)
  {
    var kept := Defined(data);
    if |kept| == 0 then Err(NoFields) else Ok(Statement(table, kept, where, fieldMap))
  }

  /** One defined entry and one condition: `SET column = $1 WHERE column = $2`. */
  lemma SingleUpdate(table: string, k: string, v: Value, w: string, wv: Value, fieldMap: map<string, string>)
    requires v != Undefined
    ensures BuildUpdateQuery(table, [(k, v)], [(w, wv)], fieldMap) ==
      Ok(UpdateStatement(table, [Assignment(Column(k, fieldMap), 1)], [Assignment(Column(w, fieldMap), 2)], [v, wv]))
  {
    var data := [(k, v)];
    assert Defined(data) == data by {
      assert data[1..] == [];
    }
    var u := Statement(table, data, [(w, wv)], fieldMap);
    assert u.setFields == [Assignment(Column(k, fieldMap), 1)];
    assert u.whereClauses == [Assignment(Column(w, fieldMap), 2)];
    assert u.values == [v, wv];
  }

  // ---------------------------------------------------------------------------
  // Binding
  // ---------------------------------------------------------------------------

  /** Pieces of the form `column = $n`, numbered from `lo`. */
  predicate NumberedAssignments(pieces: seq<Text>, lo: nat) {
    forall i :: 0 <= i < |pieces| ==> |pieces[i]| == 2 && pieces[i][0].Lit? && pieces[i][1] == Ph(lo + i)
  }

  lemma {:induction false} NumberedAssignmentsPlaceholders(pieces: seq<Text>, lo: nat)
    requires NumberedAssignments(pieces, lo)
    ensures PiecePlaceholders(pieces) == Numbered(lo, |pieces|)
    decreases |pieces|
  {
    if |pieces| > 0 {
      var p := pieces[0];
      assert p == [p[0]] + [p[1]];
      PlaceholdersAppend([p[0]], [p[1]]);
      assert Placeholders([p[1]]) == [lo] + Placeholders([]);
      assert NumberedAssignments(pieces[1..], lo + 1) by {
        forall i | 0 <= i < |pieces[1..]|
          ensures |pieces[1..][i]| == 2 && pieces[1..][i][0].Lit? && pieces[1..][i][1] == Ph(lo + 1 + i)
        {
          assert pieces[1..][i] == pieces[i + 1];
        }
      }
      NumberedAssignmentsPlaceholders(pieces[1..], lo + 1);
      NumberedSplit(lo, 1, |pieces| - 1);
    }
  }

  lemma AssignmentsNumbered(f: Fields, fieldMap: map<string, string>, lo: nat)
    ensures NumberedAssignments(Assignments(f, fieldMap, lo), lo)
  {
  }

  /** A statement whose SET list is numbered from 1 and whose WHERE list continues the count has placeholders $1..$n. */
  lemma StatementPlaceholders(u: UpdateStatement)
    requires NumberedAssignments(u.setFields, 1)
    requires NumberedAssignments(u.whereClauses, |u.setFields| + 1)
    ensures Placeholders(u.Query()) == Numbered(1, |u.setFields| + |u.whereClauses|)
  {
    var k := |u.setFields|;
    var head: Text := [Lit("UPDATE " + u.table + " SET ")];
    var mid: Text := [Lit(" WHERE ")];
    var sets := JoinPieces(u.setFields, [Lit(", ")]);
    var conds := JoinPieces(u.whereClauses, [Lit(" AND ")]);
    assert u.Query() == head + sets + mid + conds;
    PlaceholdersOfFour(head, sets, mid, conds);
    LitPhPlaceholders("UPDATE " + u.table + " SET ", 0, "");
    LitPhPlaceholders(" WHERE ", 0, "");
    LitPhPlaceholders(", ", 0, "");
    LitPhPlaceholders(" AND ", 0, "");
    JoinPiecesPlaceholders(u.setFields, [Lit(", ")]);
    JoinPiecesPlaceholders(u.whereClauses, [Lit(" AND ")]);
    NumberedAssignmentsPlaceholders(u.setFields, 1);
    NumberedAssignmentsPlaceholders(u.whereClauses, k + 1);
    assert Placeholders(u.Query()) == Numbered(1, k) + Numbered(k + 1, |u.whereClauses|);
    NumberedSplit(1, k, |u.whereClauses|);
  }

  /**
   * Placeholders run $1..$|values| without restarting: the SET list takes
   * $1..$k for the k defined entries and the WHERE list continues at $k+1.
   */
  lemma UpdatePlaceholders(table: string, data: Fields, where: Fields, fieldMap: map<string, string>)
    requires BuildUpdateQuery(table, data, where, fieldMap).Ok?
    ensures var u := BuildUpdateQuery(table, data, where, fieldMap).value;
      && PiecePlaceholders(u.setFields) == Numbered(1, |Defined(data)|)
      && PiecePlaceholders(u.whereClauses) == Numbered(|Defined(data)| + 1, |where|)
      && Placeholders(u.Query()) == Numbered(1, |u.values|)
  {
    var u := BuildUpdateQuery(table, data, where, fieldMap).value;
    var kept := Defined(data);
    assert u.setFields == Assignments(kept, fieldMap, 1);
    assert u.whereClauses == Assignments(where, fieldMap, |kept| + 1);
    AssignmentsNumbered(kept, fieldMap, 1);
    AssignmentsNumbered(where, fieldMap, |kept| + 1);
    NumberedAssignmentsPlaceholders(u.setFields, 1);
    NumberedAssignmentsPlaceholders(u.whereClauses, |kept| + 1);
    StatementPlaceholders(u);
  }

  /** Defined entries keep their relative order: a defined entry's position among the kept ones is the number of defined entries before it. */
  lemma {:induction false} DefinedPosition(data: Fields, j: nat)
    requires j < |data| && data[j].1 != Undefined
    ensures var before := |Defined(data[..j])|;
      before < |Defined(data)| && Defined(data)[before] == data[j]
    decreases |data|
  {
    if j > 0 {
      var rest, pre := data[1..], data[..j];
      DefinedPosition(rest, j - 1);
      assert pre[1..] == rest[..j - 1];
      assert pre[0] == data[0];
      var b := |Defined(rest[..j - 1])|;
      if data[0].1 == Undefined {
        assert Defined(data) == Defined(rest);
        assert Defined(pre) == Defined(rest[..j - 1]);
      } else {
        assert Defined(data) == [data[0]] + Defined(rest);
        assert Defined(pre) == [data[0]] + Defined(rest[..j - 1]);
        assert Defined(data)[b + 1] == Defined(rest)[b];
      }
    } else {
      assert data[..0] == [];
    }
  }

  /** `undefined` entries are skipped: the SET list of data with an `undefined` entry removed is the same. */
  lemma {:induction false} DefinedSkipsUndefined(a: Fields, k: string, b: Fields)
    ensures Defined(a + [(k, Undefined)] + b) == Defined(a + b)
    decreases |a|
  {
    if |a| > 0 {
      assert (a + [(k, Undefined)] + b)[1..] == a[1..] + [(k, Undefined)] + b;
      assert (a + b)[1..] == a[1..] + b;
      DefinedSkipsUndefined(a[1..], k, b);
    } else {
      assert a + [(k, Undefined)] + b == [(k, Undefined)] + b;
      assert (a + [(k, Undefined)] + b)[1..] == b;
      assert a + b == b;
    }
  }

  // ---------------------------------------------------------------------------
  // A worked example
  // ---------------------------------------------------------------------------

  /**
   * `{ userName: "Kim", role: undefined }` with `where = { id: "abc" }` and
   * `userName` mapped to `user_name`: one SET clause `user_name = $1`, the
   * condition `id = $2`, values `["Kim", "abc"]`.
   */
  lemma UpdateExample()
    ensures var r := BuildUpdateQuery("users", [("userName", Str("Kim")), ("role", Undefined)],
                                      [("id", Str("abc"))], map["userName" := "user_name"]);
      && r.Ok?
      && r.value.setFields == [[Lit("user_name = "), Ph(1)]]
      && r.value.whereClauses == [[Lit("id = "), Ph(2)]]
      && r.value.values == [Str("Kim"), Str("abc")]
  {
    var data := [("userName", Str("Kim")), ("role", Undefined)];
    assert data[1..][1..] == [];
    assert Defined(data) == [("userName", Str("Kim"))];
    assert Column("userName", map["userName" := "user_name"]) == "user_name";
    assert Column("id", map["userName" := "user_name"]) == "id";
    assert "user_name" + " = " == "user_name = " && "id" + " = " == "id = ";
  }
}
