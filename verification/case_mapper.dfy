/**
 * Identifier case mapper for result rows: `snakeToCamel` rewrites every
 * `_x` (x a lower-case ASCII letter) into the upper-case letter, and
 * `snakeToCamelObject` re-keys a row, or each element of an array of rows.
 * The same definitions appear twice in the repository
 * (src/utils/transform/toCamel.ts and src/utils/toCamel.ts); one model covers both.
 */
module CaseMapper {
  import opened Js

  predicate IsLower(c: char) {
    'a' <= c <= 'z'
  }

  predicate IsUpper(c: char) {
    'A' <= c <= 'Z'
  }

  function ToUpper(c: char): (u: char)
    requires IsLower(c)
    ensures IsUpper(u)
  {
    (c as int - 32) as char
  }

  function ToLower(c: char): (l: char)
    requires IsUpper(c)
    ensures IsLower(l)
  {
    (c as int + 32) as char
  }

  /** Nothing is left for the pattern `/_([a-z])/` to match. */
  predicate NoSnakePair(s: string) {
    forall i :: 0 <= i < |s| - 1 ==> !(s[i] == '_' && IsLower(s[i + 1]))
  }

  predicate NoUpper(s: string) {
    forall i :: 0 <= i < |s| ==> !IsUpper(s[i])
  }

  /**
   * `str.replace(/_([a-z])/g, (_, letter) => letter.toUpperCase())`: the
   * global regex scans left to right and its matches never overlap.
   */
  function SnakeToCamel(s: string): (r: string)
    ensures |r| <= |s|
    ensures |s| > 0 ==> |r| > 0 && (IsLower(r[0]) <==> IsLower(s[0]))
    ensures NoSnakePair(r)
    decreases |s|
  {
    if |s| == 0 then ""
    else if |s| >= 2 && s[0] == '_' && IsLower(s[1]) then [ToUpper(s[1])] + SnakeToCamel(s[2..])
    else [s[0]] + SnakeToCamel(s[1..])
  }

  /** A string the pattern does not match is returned unchanged. */
  lemma {:induction false} SnakeToCamelFixed(s: string)
    requires NoSnakePair(s)
    ensures SnakeToCamel(s) == s
    decreases |s|
  {
    if |s| > 0 {
      assert NoSnakePair(s[1..]) by {
        forall i | 0 <= i < |s[1..]| - 1 ensures !(s[1..][i] == '_' && IsLower(s[1..][i + 1])) {
          assert s[1..][i] == s[i + 1] && s[1..][i + 1] == s[i + 2];
        }
      }
      SnakeToCamelFixed(s[1..]);
      assert [s[0]] + s[1..] == s;
    }
  }

  /** A string without `_` is returned unchanged. */
  lemma SnakeToCamelNoUnderscore(s: string)
    requires '_' !in s
    ensures SnakeToCamel(s) == s
  {
    SnakeToCamelFixed(s);
  }

  /** Applying the rewrite twice is the same as applying it once. */
  lemma SnakeToCamelIdempotent(s: string)
    ensures SnakeToCamel(SnakeToCamel(s)) == SnakeToCamel(s)
  {
    SnakeToCamelFixed(SnakeToCamel(s));
  }

  /** Every character the rewrite drops is an underscore: the length shrinks by the number of underscores removed. */
  lemma {:induction false} SnakeToCamelLength(s: string)
    ensures |s| - |SnakeToCamel(s)| == CountChar(s, '_') - CountChar(SnakeToCamel(s), '_')
    decreases |s|
  {
    if |s| >= 2 && s[0] == '_' && IsLower(s[1]) {
      SnakeToCamelLength(s[2..]);
      var r := SnakeToCamel(s);
      assert r[1..] == SnakeToCamel(s[2..]);
      assert s[1..][1..] == s[2..];
    } else if |s| > 0 {
      SnakeToCamelLength(s[1..]);
      var r := SnakeToCamel(s);
      assert r[1..] == SnakeToCamel(s[1..]);
    }
  }

  /**
   * Reference camelCase-to-snake_case conversion: every upper-case ASCII letter
   * becomes `_` and its lower-case form. It is not the repository's
   * `toSnakeCase`, which the builders take as an uninterpreted parameter.
   */
  function CamelToSnake(t: string): (r: string)
    decreases |t|
  {
    if |t| == 0 then ""
    else if IsUpper(t[0]) then "_" + [ToLower(t[0])] + CamelToSnake(t[1..])
    else [t[0]] + CamelToSnake(t[1..])
  }

  lemma NoUpperSuffix(s: string, k: nat)
    requires NoUpper(s) && k <= |s|
    ensures NoUpper(s[k..])
  {
    forall i | 0 <= i < |s[k..]| ensures !IsUpper(s[k..][i]) {
      assert s[k..][i] == s[i + k];
    }
  }

  /** On names without upper-case letters, the reference snake_case conversion undoes the rewrite. */
  lemma {:induction false} CamelToSnakeUndoesSnakeToCamel(s: string)
    requires NoUpper(s)
    ensures CamelToSnake(SnakeToCamel(s)) == s
    decreases |s|
  {
    if |s| >= 2 && s[0] == '_' && IsLower(s[1]) {
      NoUpperSuffix(s, 2);
      CamelToSnakeUndoesSnakeToCamel(s[2..]);
      var r := SnakeToCamel(s);
      assert r == [ToUpper(s[1])] + SnakeToCamel(s[2..]);
      assert IsUpper(r[0]) && r[1..] == SnakeToCamel(s[2..]);
      assert CamelToSnake(r) == "_" + [ToLower(r[0])] + s[2..];
      assert ToLower(ToUpper(s[1])) == s[1];
      assert s == "_" + [s[1]] + s[2..];
    } else if |s| > 0 {
      NoUpperSuffix(s, 1);
      CamelToSnakeUndoesSnakeToCamel(s[1..]);
      var r := SnakeToCamel(s);
      assert r == [s[0]] + SnakeToCamel(s[1..]);
      assert !IsUpper(r[0]) && r[1..] == SnakeToCamel(s[1..]);
      assert CamelToSnake(r) == [s[0]] + s[1..];
      assert [s[0]] + s[1..] == s;
    }
  }

  /** On names without `_`, the rewrite undoes the reference snake_case conversion. */
  lemma {:induction false} SnakeToCamelUndoesCamelToSnake(t: string)
    requires '_' !in t
    ensures SnakeToCamel(CamelToSnake(t)) == t
    decreases |t|
  {
    if |t| > 0 {
      SnakeToCamelUndoesCamelToSnake(t[1..]);
      var c := CamelToSnake(t);
      if IsUpper(t[0]) {
        assert c == "_" + [ToLower(t[0])] + CamelToSnake(t[1..]);
        assert c[2..] == CamelToSnake(t[1..]);
        assert ToUpper(ToLower(t[0])) == t[0];
      } else {
        assert c[1..] == CamelToSnake(t[1..]);
      }
      assert [t[0]] + t[1..] == t;
    }
  }

  // ---------------------------------------------------------------------------
  // snakeToCamelObject
  // ---------------------------------------------------------------------------

  /**
   * `Object.entries(row).reduce((acc, [key, value]) => Object.assign(acc, { [snakeToCamel(key)]: value }), {})`,
   * written as a recursion on the last entry.
   */
  function Rekey(f: Fields): Fields
    decreases |f|
  {
    if |f| == 0 then []
    else Assign(Rekey(f[..|f| - 1]), SnakeToCamel(f[|f| - 1].0), f[|f| - 1].1)
  }

  /** `snakeToCamelObject(value)` */
  function SnakeToCamelObject(v: Value): (r: Value)
    ensures v.Arr? ==> r.Arr? && |r.items| == |v.items|
    ensures v.Obj? ==> r.Obj?
    ensures !v.Arr? && !v.Obj? ==> r == v
    decreases v
  {
    match v
    case Arr(items) => Arr(seq(|items|, i requires 0 <= i < |items| => SnakeToCamelObject(items[i])))
    case Obj(fields) => Obj(Rekey(fields))
    case _ => v
  }

  /** Arrays are mapped element by element, in order. */
  lemma ArrayElementwise(items: seq<Value>, i: nat)
    requires i < |items|
    ensures SnakeToCamelObject(Arr(items)).items[i] == SnakeToCamelObject(items[i])
  {
  }

  /** A re-keyed row never repeats a key. */
  lemma {:induction false} RekeyDistinct(f: Fields)
    ensures DistinctKeys(Rekey(f))
    decreases |f|
  {
    if |f| > 0 {
      RekeyDistinct(f[..|f| - 1]);
      AssignDistinct(Rekey(f[..|f| - 1]), SnakeToCamel(f[|f| - 1].0), f[|f| - 1].1);
    }
  }

  /** The input keys after the rewrite, in input order. */
  function CamelKeys(f: Fields): (ks: seq<string>)
    ensures |ks| == |f|
  {
    seq(|f|, i requires 0 <= i < |f| => SnakeToCamel(f[i].0))
  }

  /** Re-keying a row with one more entry at the end. */
  lemma RekeyLast(f: Fields)
    requires |f| > 0
    ensures Rekey(f) == Assign(Rekey(f[..|f| - 1]), SnakeToCamel(f[|f| - 1].0), f[|f| - 1].1)
  {
  }

  /** The rewritten keys of a row with one more entry at the end. */
  lemma CamelKeysLast(f: Fields, k: string)
    requires |f| > 0
    ensures k in CamelKeys(f) <==> k in CamelKeys(f[..|f| - 1]) || k == SnakeToCamel(f[|f| - 1].0)
  {
    var p := f[..|f| - 1];
    assert CamelKeys(f) == CamelKeys(p) + [SnakeToCamel(f[|f| - 1].0)] by {
      forall i | 0 <= i < |p| ensures CamelKeys(f)[i] == CamelKeys(p)[i] {
        assert p[i] == f[i];
      }
    }
  }

  /** The keys of a re-keyed row are exactly the rewritten input keys. */
  lemma {:induction false} RekeyKeys(f: Fields, k: string)
    ensures HasKey(Rekey(f), k) <==> k in CamelKeys(f)
    decreases |f|
  {
    if |f| > 0 {
      var p := f[..|f| - 1];
      RekeyKeys(p, k);
      RekeyLast(f);
      HasKeyAssign(Rekey(p), SnakeToCamel(f[|f| - 1].0), f[|f| - 1].1, k);
      CamelKeysLast(f, k);
    }
  }

  /**
   * When several input keys rewrite to the same key, the value of the LAST
   * such entry is kept; values themselves are copied unchanged (no nested re-keying).
   */
  lemma {:induction false} RekeyLastWins(f: Fields, i: nat)
    requires i < |f|
    requires forall j :: i < j < |f| ==> SnakeToCamel(f[j].0) != SnakeToCamel(f[i].0)
    ensures Get(Rekey(f), SnakeToCamel(f[i].0)) == f[i].1
    decreases |f|
  {
    if i < |f| - 1 {
      var p := f[..|f| - 1];
      assert p[i] == f[i];
      RekeyLastWins(p, i);
    }
  }

  /** The row with each key rewritten and each value unchanged, in input order. */
  function CamelEntries(f: Fields): (r: Fields)
    ensures |r| == |f|
  {
    seq(|f|, i requires 0 <= i < |f| => (SnakeToCamel(f[i].0), f[i].1))
  }

  /** Without key collisions, no earlier rewritten key equals the last one. */
  lemma CamelEntriesFresh(f: Fields)
    requires |f| > 0
    requires forall i, j :: 0 <= i < j < |f| ==> SnakeToCamel(f[i].0) != SnakeToCamel(f[j].0)
    ensures !HasKey(CamelEntries(f[..|f| - 1]), SnakeToCamel(f[|f| - 1].0))
  {
    var p := f[..|f| - 1];
    var e := CamelEntries(p);
    forall i | 0 <= i < |p| ensures Keys(e)[i] != SnakeToCamel(f[|f| - 1].0) {
      assert p[i] == f[i];
      assert Keys(e)[i] == SnakeToCamel(f[i].0);
    }
  }

  /** Appending one entry to a row appends its rewritten entry. */
  lemma CamelEntriesLast(f: Fields)
    requires |f| > 0
    ensures CamelEntries(f) == CamelEntries(f[..|f| - 1]) + [(SnakeToCamel(f[|f| - 1].0), f[|f| - 1].1)]
  {
    var p := f[..|f| - 1];
    forall i | 0 <= i < |p| ensures CamelEntries(f)[i] == CamelEntries(p)[i] {
      assert p[i] == f[i];
    }
  }

  /** Without key collisions, a row keeps its length and order, with each key rewritten and each value unchanged. */
  lemma {:induction false} RekeyNoCollision(f: Fields)
    requires forall i, j :: 0 <= i < j < |f| ==> SnakeToCamel(f[i].0) != SnakeToCamel(f[j].0)
    ensures Rekey(f) == CamelEntries(f)
    decreases |f|
  {
    if |f| > 0 {
      var p := f[..|f| - 1];
      assert forall i, j :: 0 <= i < j < |p| ==> SnakeToCamel(p[i].0) != SnakeToCamel(p[j].0) by {
        assert forall i :: 0 <= i < |p| ==> p[i] == f[i];
      }
      RekeyNoCollision(p);
      RekeyLast(f);
      CamelEntriesFresh(f);
      CamelEntriesLast(f);
    }
  }
}
