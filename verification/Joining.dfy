/** Texts joined by a separator that occurs in none of them split back uniquely. */
module Joining {
  import opened Utf16

  predicate Without(t: Text, sep: CodeUnit) {
    forall i :: 0 <= i < |t| ==> t[i] != sep
  }

  /** `texts.join(sep)`. */
  function Join(texts: seq<Text>, sep: CodeUnit): Text {
    if texts == [] then []
    else if |texts| == 1 then texts[0]
    else texts[0] + ([sep] + Join(texts[1..], sep))
  }

  lemma SplitUnique(sep: CodeUnit, p: Text, x: Text, q: Text, y: Text)
    requires Without(p, sep) && Without(q, sep)
    requires p + ([sep] + x) == q + ([sep] + y)
    ensures p == q && x == y
  {
    var s, t := p + ([sep] + x), q + ([sep] + y);
    assert forall i :: 0 <= i < |p| ==> s[i] == p[i];
    assert forall i :: 0 <= i < |q| ==> t[i] == q[i];
    assert s[|p|] == sep && t[|q|] == sep;
    assert |p| == |q|;
    assert p == s[..|p|] && q == t[..|q|];
    assert x == s[|p| + 1..] && y == t[|q| + 1..];
  }

  lemma JoinHasSeparator(texts: seq<Text>, sep: CodeUnit)
    requires |texts| >= 2
    ensures !Without(Join(texts, sep), sep)
  {
    assert Join(texts, sep)[|texts[0]|] == sep;
  }

  /** Joining is injective, except that no text and one empty text join alike. */
  lemma {:induction false} JoinInjective(a: seq<Text>, b: seq<Text>, sep: CodeUnit)
    requires forall t :: t in a ==> Without(t, sep)
    requires forall t :: t in b ==> Without(t, sep)
    ensures Join(a, sep) == Join(b, sep) <==> a == b || (a == [] && b == [[]]) || (a == [[]] && b == [])
  {
    if |a| >= 2 {
      JoinHasSeparator(a, sep);
    }
    if |b| >= 2 {
      JoinHasSeparator(b, sep);
    }
    if |a| >= 2 && |b| >= 2 {
      if Join(a, sep) == Join(b, sep) {
        SplitUnique(sep, a[0], Join(a[1..], sep), b[0], Join(b[1..], sep));
        JoinInjective(a[1..], b[1..], sep);
        assert a == [a[0]] + a[1..] && b == [b[0]] + b[1..];
      }
    } else if |a| == 1 && |b| == 1 {
      assert a == [a[0]] && b == [b[0]];
    }
  }

  // ------------------------------------------------------------------- cutting

  /** `text.split(sep)`. */
  function Cut(t: Text, sep: CodeUnit): (pieces: seq<Text>)
    ensures pieces != []
    ensures forall p :: p in pieces ==> Without(p, sep)
    ensures Without(t, sep) ==> pieces == [t]
  {
    if t == [] then [[]]
    else
      var rest := Cut(t[1..], sep);
      assert t == [t[0]] + t[1..];
      assert rest[0] in rest && forall p :: p in rest[1..] ==> p in rest;
      if t[0] == sep then [[]] + rest else [[t[0]] + rest[0]] + rest[1..]
  }

  /** The pieces of all texts, in order. */
  function Pieces(texts: seq<Text>, sep: CodeUnit): (pieces: seq<Text>)
    ensures pieces == [] <==> texts == []
    ensures forall p :: p in pieces ==> Without(p, sep)
  {
    if texts == [] then [] else Cut(texts[0], sep) + Pieces(texts[1..], sep)
  }

  lemma {:induction false} JoinCut(t: Text, sep: CodeUnit)
    ensures Join(Cut(t, sep), sep) == t
  {
    if t != [] {
      var rest := Cut(t[1..], sep);
      JoinCut(t[1..], sep);
      assert t == [t[0]] + t[1..];
      if t[0] == sep {
        assert ([[]] + rest)[1..] == rest;
      } else {
        JoinPrepend([t[0]], rest, sep);
      }
    }
  }

  lemma JoinPrepend(prefix: Text, texts: seq<Text>, sep: CodeUnit)
    requires texts != []
    ensures Join([prefix + texts[0]] + texts[1..], sep) == prefix + Join(texts, sep)
  {
    var longer := [prefix + texts[0]] + texts[1..];
    assert longer[1..] == texts[1..];
  }

  lemma {:induction false} JoinConcat(a: seq<Text>, b: seq<Text>, sep: CodeUnit)
    requires a != [] && b != []
    ensures Join(a + b, sep) == Join(a, sep) + ([sep] + Join(b, sep))
  {
    if |a| == 1 {
      assert (a + b)[1..] == b;
    } else {
      assert (a + b)[1..] == a[1..] + b;
      JoinConcat(a[1..], b, sep);
    }
  }

  /** Cutting loses nothing that joining shows. */
  lemma {:induction false} JoinPieces(texts: seq<Text>, sep: CodeUnit)
    ensures Join(Pieces(texts, sep), sep) == Join(texts, sep)
  {
    if texts != [] {
      JoinCut(texts[0], sep);
      JoinPieces(texts[1..], sep);
      if |texts| == 1 {
        assert Cut(texts[0], sep) + [] == Cut(texts[0], sep);
      } else {
        JoinConcat(Cut(texts[0], sep), Pieces(texts[1..], sep), sep);
      }
    }
  }

  lemma {:induction false} PiecesOfWhole(texts: seq<Text>, sep: CodeUnit)
    requires forall t :: t in texts ==> Without(t, sep)
    ensures Pieces(texts, sep) == texts
  {
    if texts != [] {
      PiecesOfWhole(texts[1..], sep);
      assert texts == [texts[0]] + texts[1..];
    }
  }
}
