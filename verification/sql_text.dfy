/**
 * SQL text as the builders produce it: literal text interleaved with
 * positional placeholders `$n`. Keeping placeholders as tokens lets the
 * numbering be stated without parsing digits back out of strings; `Render`
 * gives the exact characters sent to the database.
 */
module SqlText {
  import opened Js

  datatype Tok =
    | Lit(s: string)
    /** `$n` */
    | Ph(n: nat)

  type Text = seq<Tok>

  function TokText(t: Tok): string {
    match t
    case Lit(s) => s
    case Ph(n) => "$" + NatText(n)
  }

  /** The characters of a text. */
  function Render(t: Text): string {
    if |t| == 0 then "" else TokText(t[0]) + Render(t[1..])
  }

  /** The placeholder numbers of a text, left to right. */
  function Placeholders(t: Text): seq<nat> {
    if |t| == 0 then []
    else (if t[0].Ph? then [t[0].n] else []) + Placeholders(t[1..])
  }

  /** The numbers lo, lo+1, ..., lo+n-1. */
  function Numbered(lo: nat, n: nat): (r: seq<nat>)
    ensures |r| == n
    ensures forall i :: 0 <= i < n ==> r[i] == lo + i
  {
    seq(n, i => lo + i)
  }

  /** `pieces.join(sep)` on texts. */
  function JoinPieces(pieces: seq<Text>, sep: Text): Text {
    if |pieces| == 0 then []
    else if |pieces| == 1 then pieces[0]
    else pieces[0] + sep + JoinPieces(pieces[1..], sep)
  }

  /** The placeholders of each piece, concatenated in order. */
  function PiecePlaceholders(pieces: seq<Text>): seq<nat> {
    if |pieces| == 0 then [] else Placeholders(pieces[0]) + PiecePlaceholders(pieces[1..])
  }

  lemma {:induction false} PlaceholdersAppend(a: Text, b: Text)
    ensures Placeholders(a + b) == Placeholders(a) + Placeholders(b)
    decreases |a|
  {
    if |a| > 0 {
      assert (a + b)[1..] == a[1..] + b;
      PlaceholdersAppend(a[1..], b);
    } else {
      assert a + b == b;
    }
  }

  lemma {:induction false} RenderAppend(a: Text, b: Text)
    ensures Render(a + b) == Render(a) + Render(b)
    decreases |a|
  {
    if |a| > 0 {
      assert (a + b)[1..] == a[1..] + b;
      RenderAppend(a[1..], b);
    } else {
      assert a + b == b;
    }
  }

  /** Two literals render as their concatenation. */
  lemma RenderLits(a: string, b: string)
    ensures Render([Lit(a), Lit(b)]) == a + b
  {
    var t := [Lit(a), Lit(b)];
    assert t[1..] == [Lit(b)] && t[1..][1..] == [];
    assert Render([Lit(b)]) == b + Render([]);
    assert b + "" == b;
  }

  lemma {:induction false} PiecePlaceholdersAppend(a: seq<Text>, b: seq<Text>)
    ensures PiecePlaceholders(a + b) == PiecePlaceholders(a) + PiecePlaceholders(b)
    decreases |a|
  {
    if |a| > 0 {
      assert (a + b)[1..] == a[1..] + b;
      PiecePlaceholdersAppend(a[1..], b);
    } else {
      assert a + b == b;
    }
  }

  /** A separator without placeholders adds none: the joined text's placeholders are the pieces'. */
  lemma {:induction false} JoinPiecesPlaceholders(pieces: seq<Text>, sep: Text)
    requires Placeholders(sep) == []
    ensures Placeholders(JoinPieces(pieces, sep)) == PiecePlaceholders(pieces)
    decreases |pieces|
  {
    if |pieces| == 1 {
      assert PiecePlaceholders(pieces[1..]) == [];
    } else if |pieces| > 1 {
      JoinPiecesPlaceholders(pieces[1..], sep);
      PlaceholdersAppend(pieces[0] + sep, JoinPieces(pieces[1..], sep));
      PlaceholdersAppend(pieces[0], sep);
    }
  }

  lemma OnePiecePlaceholders(t: Text)
    ensures PiecePlaceholders([t]) == Placeholders(t)
  {
    assert PiecePlaceholders([t]) == Placeholders(t) + PiecePlaceholders([]);
  }

  lemma PlaceholdersOfFour(a: Text, b: Text, c: Text, d: Text)
    ensures Placeholders(a + b + c + d) == Placeholders(a) + Placeholders(b) + Placeholders(c) + Placeholders(d)
  {
    PlaceholdersAppend(a, b);
    PlaceholdersAppend(a + b, c);
    PlaceholdersAppend(a + b + c, d);
  }

  /** `text $n` holds the one placeholder $n, and so does `text $n text`. */
  lemma LitPhPlaceholders(s: string, n: nat, s2: string)
    ensures Placeholders([Lit(s), Ph(n)]) == [n]
    ensures Placeholders([Lit(s), Ph(n), Lit(s2)]) == [n]
    ensures Placeholders([Lit(s)]) == []
  {
    var t: Text := [Lit(s), Ph(n), Lit(s2)];
    assert t[1..] == [Ph(n), Lit(s2)] && t[1..][1..] == [Lit(s2)];
    assert Placeholders([Lit(s2)]) == [] + Placeholders([]);
    assert Placeholders([Ph(n), Lit(s2)]) == [n] + Placeholders([Lit(s2)]);
    var u: Text := [Lit(s), Ph(n)];
    assert u[1..] == [Ph(n)];
    assert Placeholders([Ph(n)]) == [n] + Placeholders([]);
    assert Placeholders([Lit(s)]) == [] + Placeholders([]);
  }

  /** A single piece `text $1` holds the one placeholder $1; a single literal piece holds none. */
  lemma SinglePiecePlaceholders(s: string)
    ensures PiecePlaceholders([[Lit(s), Ph(1)]]) == Numbered(1, 1)
    ensures PiecePlaceholders([[Lit(s)]]) == Numbered(1, 0)
  {
    var t: Text := [Lit(s), Ph(1)];
    assert PiecePlaceholders([t]) == Placeholders(t) + PiecePlaceholders([]);
    assert t[1..] == [Ph(1)];
    assert Placeholders(t) == [] + Placeholders([Ph(1)]);
    assert Placeholders([Ph(1)]) == [1] + Placeholders([]);
    var u: Text := [Lit(s)];
    assert PiecePlaceholders([u]) == Placeholders(u) + PiecePlaceholders([]);
    assert Placeholders(u) == [] + Placeholders([]);
  }

  lemma NumberedSplit(lo: nat, m: nat, n: nat)
    ensures Numbered(lo, m) + Numbered(lo + m, n) == Numbered(lo, m + n)
  {
  }
}
