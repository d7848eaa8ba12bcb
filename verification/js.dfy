/**
 * The slice of JavaScript value semantics the query layer relies on: untyped
 * values, truthiness, string conversion as done by template literals, plain
 * objects as ordered key/value lists with `Object.assign` semantics, and
 * `String.prototype.split` on a one-character separator.
 */
module Js {

  /** A JavaScript value. Numbers are integers: no query-layer path depends on fractions or NaN. */
  datatype Value =
    | Undefined
    | Null
    | Bool(b: bool)
    | Num(n: int)
    | Str(s: string)
    | Arr(items: seq<Value>)
    | Obj(fields: seq<(string, Value)>)

  /** A plain object in key-enumeration order (`Object.entries`). */
  type Fields = seq<(string, Value)>

  /** `!!v` */
  predicate Truthy(v: Value) {
    match v
    case Undefined => false
    case Null => false
    case Bool(b) => b
    case Num(n) => n != 0
    case Str(s) => s != ""
    case Arr(_) => true
    case Obj(_) => true
  }

  function DigitChar(d: nat): char
    requires d < 10
  {
    "0123456789"[d]
  }

  /** Decimal notation of a natural number, without leading zeros. */
  function NatText(n: nat): (r: string)
    ensures |r| >= 1
    ensures forall i :: 0 <= i < |r| ==> '0' <= r[i] <= '9'
    decreases n
  {
    if n < 10 then [DigitChar(n)] else NatText(n / 10) + [DigitChar(n % 10)]
  }

  /** Decimal notation of an integer, as `String(n)` prints it. */
  function IntText(n: int): string {
    if n < 0 then "-" + NatText(-n) else NatText(n)
  }

  /** `parts.join(sep)` */
  function JoinText(parts: seq<string>, sep: string): string {
    if |parts| == 0 then ""
    else if |parts| == 1 then parts[0]
    else parts[0] + sep + JoinText(parts[1..], sep)
  }

  /** `String(v)`, which is also what `${v}` inside a template literal produces. */
  function ToText(v: Value): string
    decreases v
  {
    match v
    case Undefined => "undefined"
    case Null => "null"
    case Bool(b) => if b then "true" else "false"
    case Num(n) => IntText(n)
    case Str(s) => s
    case Arr(items) =>
      // Array.prototype.join prints null and undefined elements as empty strings.
      JoinText(seq(|items|, i requires 0 <= i < |items| =>
                     if items[i].Undefined? || items[i].Null? then "" else ToText(items[i])), ",")
    case Obj(_) => "[object Object]"
  }

  /** `items.join(sep)`: `null` and `undefined` elements print as empty strings. */
  function JoinValues(items: seq<Value>, sep: string): string {
    JoinText(seq(|items|, i requires 0 <= i < |items| =>
                   if items[i].Undefined? || items[i].Null? then "" else ToText(items[i])), sep)
  }

  // ---------------------------------------------------------------------------
  // Plain objects
  // ---------------------------------------------------------------------------

  /** `Object.keys(obj)` */
  function Keys(f: Fields): (ks: seq<string>)
    ensures |ks| == |f|
    ensures forall i :: 0 <= i < |f| ==> ks[i] == f[i].0
  {
    if |f| == 0 then [] else [f[0].0] + Keys(f[1..])
  }

  predicate HasKey(f: Fields, k: string) {
    k in Keys(f)
  }

  /** No key occurs twice, as in every JavaScript object. */
  predicate DistinctKeys(f: Fields) {
    forall i, j :: 0 <= i < j < |f| ==> f[i].0 != f[j].0
  }

  /** `obj[k]`: `undefined` when the key is absent, otherwise the value of its first entry. */
  function Get(f: Fields, k: string): (v: Value)
    ensures !HasKey(f, k) ==> v == Undefined
  {
    if |f| == 0 then Undefined
    else if f[0].0 == k then f[0].1
    else Get(f[1..], k)
  }

  /** A key no entry carries reads as `undefined`. */
  lemma GetAbsent(f: Fields, k: string)
    requires forall i :: 0 <= i < |f| ==> f[i].0 != k
    ensures Get(f, k) == Undefined
  {
    assert !HasKey(f, k) by {
      forall i | 0 <= i < |f| ensures Keys(f)[i] != k {
      }
    }
  }

  /**
   * `Object.assign(obj, { [k]: v })`: an existing key keeps its position and
   * takes the new value; a new key is appended.
   */
  function Assign(f: Fields, k: string, v: Value): (r: Fields)
    ensures Get(r, k) == v
    ensures forall k' :: k' != k ==> Get(r, k') == Get(f, k')
    ensures Keys(r) == if HasKey(f, k) then Keys(f) else Keys(f) + [k]
    ensures !HasKey(f, k) ==> r == f + [(k, v)]
  {
    if |f| == 0 then [(k, v)]
    else if f[0].0 == k then
      var r := [(k, v)] + f[1..];
      assert r[1..] == f[1..];
      assert Keys(r) == Keys(f);
      r
    else
      var t := Assign(f[1..], k, v);
      AssignCons(f[0], f[1..], t, k, v);
      assert f == [f[0]] + f[1..];
      [f[0]] + t
  }

  /** What `Assign(f, k, v)` promises about its result `r`. */
  ghost predicate AssignedFrom(r: Fields, f: Fields, k: string, v: Value) {
    && Get(r, k) == v
    && (forall k' :: k' != k ==> Get(r, k') == Get(f, k'))
    && Keys(r) == (if HasKey(f, k) then Keys(f) else Keys(f) + [k])
    && (!HasKey(f, k) ==> r == f + [(k, v)])
  }

  /** Putting back an entry for another key in front keeps the promise. */
  lemma AssignCons(x: (string, Value), rest: Fields, t: Fields, k: string, v: Value)
    requires x.0 != k
    requires AssignedFrom(t, rest, k, v)
    ensures AssignedFrom([x] + t, [x] + rest, k, v)
  {
    ConsGet(x, rest, t, k, v);
    ConsKeys(x, rest, t, k);
    if !HasKey(rest, k) {
      assert [x] + t == ([x] + rest) + [(k, v)];
    }
  }

  /** Reads through an entry put in front of both objects. */
  lemma ConsGet(x: (string, Value), rest: Fields, t: Fields, k: string, v: Value)
    requires x.0 != k
    requires Get(t, k) == v
    requires forall k' :: k' != k ==> Get(t, k') == Get(rest, k')
    ensures Get([x] + t, k) == v
    ensures forall k' :: k' != k ==> Get([x] + t, k') == Get([x] + rest, k')
  {
    var r, f := [x] + t, [x] + rest;
    assert r[0] == x && r[1..] == t;
    assert f[0] == x && f[1..] == rest;
  }

  /** The key lists of two objects with the same entry put in front. */
  lemma ConsKeys(x: (string, Value), rest: Fields, t: Fields, k: string)
    requires x.0 != k
    requires Keys(t) == (if HasKey(rest, k) then Keys(rest) else Keys(rest) + [k])
    ensures HasKey([x] + rest, k) <==> HasKey(rest, k)
    ensures Keys([x] + t) == (if HasKey(rest, k) then Keys([x] + rest) else Keys([x] + rest) + [k])
  {
    var r, f := [x] + t, [x] + rest;
    assert r[0] == x && r[1..] == t;
    assert f[0] == x && f[1..] == rest;
    assert Keys(r) == [x.0] + Keys(t);
    assert Keys(f) == [x.0] + Keys(rest);
  }

  /** The keys of two objects put one after the other. */
  lemma HasKeyAppend(a: Fields, b: Fields, k: string)
    ensures HasKey(a + b, k) <==> HasKey(a, k) || HasKey(b, k)
  {
    assert Keys(a + b) == Keys(a) + Keys(b);
  }

  /** After assigning `k`, the keys are the old ones and `k`. */
  lemma HasKeyAssign(f: Fields, k: string, v: Value, k2: string)
    ensures HasKey(Assign(f, k, v), k2) <==> HasKey(f, k2) || k2 == k
  {
    var r := Assign(f, k, v);
    if !HasKey(f, k) {
      assert Keys(r) == Keys(f) + [k];
    }
  }

  /** The assigned pair is an entry of the result. */
  lemma {:induction false} AssignHolds(f: Fields, k: string, v: Value)
    ensures (k, v) in Assign(f, k, v)
    decreases |f|
  {
    if |f| > 0 && f[0].0 != k {
      AssignHolds(f[1..], k, v);
      assert Assign(f, k, v) == [f[0]] + Assign(f[1..], k, v);
    }
  }

  /** Assigning keeps keys distinct. */
  lemma AssignDistinct(f: Fields, k: string, v: Value)
    requires DistinctKeys(f)
    ensures DistinctKeys(Assign(f, k, v))
  {
    var r := Assign(f, k, v);
    forall i, j | 0 <= i < j < |r| ensures r[i].0 != r[j].0 {
      assert Keys(r)[i] == r[i].0 && Keys(r)[j] == r[j].0;
      if j < |f| {
        assert Keys(f)[i] == f[i].0 && Keys(f)[j] == f[j].0;
      } else {
        assert Keys(f)[i] == f[i].0;
      }
    }
  }

  /** The object without the given keys: the `...rest` of a destructuring pattern. */
  function Without(f: Fields, keys: set<string>): (r: Fields)
    ensures |r| <= |f|
    ensures forall i :: 0 <= i < |r| ==> r[i].0 !in keys
    ensures forall i :: 0 <= i < |f| && f[i].0 !in keys ==> f[i] in r
    ensures forall p :: p in r ==> p in f
  {
    if |f| == 0 then []
    else if f[0].0 in keys then Without(f[1..], keys)
    else [f[0]] + Without(f[1..], keys)
  }

  /** Dropping other keys does not change what a kept key reads as; a dropped key reads as `undefined`. */
  lemma {:induction false} GetWithout(f: Fields, keys: set<string>, k: string)
    ensures Get(Without(f, keys), k) == if k in keys then Undefined else Get(f, k)
    decreases |f|
  {
    if |f| > 0 {
      GetWithout(f[1..], keys, k);
      if f[0].0 !in keys {
        var r := [f[0]] + Without(f[1..], keys);
        assert r[1..] == Without(f[1..], keys);
      }
    }
  }

  // ---------------------------------------------------------------------------
  // String.prototype.split with a one-character separator
  // ---------------------------------------------------------------------------

  function CountChar(s: string, c: char): nat {
    if |s| == 0 then 0 else (if s[0] == c then 1 else 0) + CountChar(s[1..], c)
  }

  /** `s.split(sep)` for a one-character separator. */
  function Split(s: string, sep: char): (parts: seq<string>)
    ensures |parts| == CountChar(s, sep) + 1
    ensures forall i :: 0 <= i < |parts| ==> sep !in parts[i]
  {
    if |s| == 0 then [""]
    else
      var rest := Split(s[1..], sep);
      if s[0] == sep then [""] + rest
      else [[s[0]] + rest[0]] + rest[1..]
  }

  /** `parts.join(sep)` for a one-character separator. */
  function Join(parts: seq<string>, sep: char): string {
    if |parts| == 0 then ""
    else if |parts| == 1 then parts[0]
    else parts[0] + [sep] + Join(parts[1..], sep)
  }

  /** Splitting and joining again gives back the string. */
  lemma {:induction false} SplitJoin(s: string, sep: char)
    ensures Join(Split(s, sep), sep) == s
    decreases |s|
  {
    if |s| > 0 {
      var rest := Split(s[1..], sep);
      SplitJoin(s[1..], sep);
      if s[0] == sep {
        assert [s[0]] + s[1..] == s;
      } else {
        var parts := Split(s, sep);
        assert parts == [[s[0]] + rest[0]] + rest[1..];
        if |rest| == 1 {
          assert Join(parts, sep) == [s[0]] + rest[0];
          assert Join(rest, sep) == rest[0];
        } else {
          assert parts[1..] == rest[1..];
          assert Join(rest, sep) == rest[0] + [sep] + Join(rest[1..], sep);
          assert Join(parts, sep) == [s[0]] + rest[0] + [sep] + Join(rest[1..], sep);
        }
        assert [s[0]] + s[1..] == s;
      }
    }
  }

  /** Joining separator-free parts and splitting again gives back the parts. */
  lemma {:induction false} JoinSplit(parts: seq<string>, sep: char)
    requires |parts| >= 1
    requires forall i :: 0 <= i < |parts| ==> sep !in parts[i]
    ensures Split(Join(parts, sep), sep) == parts
    decreases |parts|
  {
    if |parts| == 1 {
      SplitFree(parts[0], sep);
    } else {
      JoinSplit(parts[1..], sep);
      SplitPrefix(parts[0], Join(parts[1..], sep), sep);
      assert [parts[0]] + parts[1..] == parts;
    }
  }

  /** A string without the separator splits into itself. */
  lemma {:induction false} SplitFree(s: string, sep: char)
    requires sep !in s
    ensures Split(s, sep) == [s]
    decreases |s|
  {
    if |s| > 0 {
      SplitFree(s[1..], sep);
      assert [s[0]] + s[1..] == s;
    }
  }

  /** A separator-free prefix followed by the separator splits off as the first part. */
  lemma {:induction false} SplitPrefix(a: string, b: string, sep: char)
    requires sep !in a
    ensures Split(a + [sep] + b, sep) == [a] + Split(b, sep)
    decreases |a|
  {
    if |a| == 0 {
      assert a + [sep] + b == [sep] + b;
      assert ([sep] + b)[1..] == b;
    } else {
      SplitPrefix(a[1..], b, sep);
      assert (a + [sep] + b)[1..] == a[1..] + [sep] + b;
      assert [a[0]] + a[1..] == a;
    }
  }

  lemma {:induction false} CountCharAbsent(s: string, c: char)
    requires c !in s
    ensures CountChar(s, c) == 0
    decreases |s|
  {
    if |s| > 0 {
      CountCharAbsent(s[1..], c);
    }
  }
}
