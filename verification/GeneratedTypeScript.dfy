/**
 normalizeGeneratedTypeScript (scripts/app-server-schema.ts): line ends become LF,
 blanks before a line end go, white space at the end goes, one LF is added.
 */
module GeneratedTypeScript {
  import opened Utf16

  const LF: CodeUnit := 0x0A
  const CR: CodeUnit := 0x0D

  predicate IsBlank(c: CodeUnit) { c == 0x20 || c == 0x09 }

  /** Where `$` matches under the m flag. */
  predicate IsLineEnd(c: CodeUnit) { c == LF || c == CR || c == 0x2028 || c == 0x2029 }

  /** `value.replace(/\r\n?/g, "\n")`. */
  function UnifyLineEnds(t: Text): Text
    decreases |t|
  {
    if t == [] then []
    else if t[0] == CR then [LF] + UnifyLineEnds(if |t| >= 2 && t[1] == LF then t[2..] else t[1..])
    else [t[0]] + UnifyLineEnds(t[1..])
  }

  predicate BlankToLineEnd(t: Text) {
    t == [] || IsLineEnd(t[0]) || (IsBlank(t[0]) && BlankToLineEnd(t[1..]))
  }

  /** `value.replace(/[ \t]+$/gm, "")`: drops each blank followed only by blanks up to a line end. */
  function StripBlanks(t: Text): Text {
    if t == [] then []
    else if IsBlank(t[0]) && BlankToLineEnd(t) then StripBlanks(t[1..])
    else [t[0]] + StripBlanks(t[1..])
  }

  function Normalize(t: Text): Text {
    TrimEnd(StripBlanks(UnifyLineEnds(t))) + [LF]
  }

  /** A blank at i is followed by a unit that ends no line. */
  predicate Kept(t: Text, i: nat)
    requires i < |t|
  {
    IsBlank(t[i]) ==> i + 1 < |t| && !IsLineEnd(t[i + 1])
  }

  predicate NoBlankBeforeLineEnd(t: Text) {
    forall i :: 0 <= i < |t| ==> Kept(t, i)
  }

  /** No CR, no blank before a line end, and one LF after text that ends in no white space. */
  predicate Normal(t: Text) {
    && (forall i :: 0 <= i < |t| ==> t[i] != CR)
    && NoBlankBeforeLineEnd(t)
    && t != [] && t[|t| - 1] == LF
    && (|t| == 1 || !IsTrimmable(t[|t| - 2]))
  }

  lemma {:induction false} UnifyProperties(t: Text)
    ensures forall i :: 0 <= i < |UnifyLineEnds(t)| ==> UnifyLineEnds(t)[i] != CR
    ensures (forall i :: 0 <= i < |t| ==> t[i] != CR) ==> UnifyLineEnds(t) == t
    decreases |t|
  {
    if t != [] {
      if t[0] == CR && |t| >= 2 && t[1] == LF {
        UnifyProperties(t[2..]);
      } else {
        UnifyProperties(t[1..]);
      }
    }
  }

  lemma TailKept(t: Text)
    requires t != []
    ensures NoBlankBeforeLineEnd(t) <==> Kept(t, 0) && NoBlankBeforeLineEnd(t[1..])
  {
    var rest := t[1..];
    forall i | 0 <= i < |rest| ensures Kept(rest, i) <==> Kept(t, i + 1) {
    }
    if NoBlankBeforeLineEnd(rest) && Kept(t, 0) {
      forall i | 0 <= i < |t| ensures Kept(t, i) {
        assert i == 0 || Kept(rest, i - 1);
      }
    }
    if NoBlankBeforeLineEnd(t) {
      forall i | 0 <= i < |rest| ensures Kept(rest, i) {
        assert Kept(t, i + 1);
      }
    }
  }

  /** A blank kept by StripBlanks is followed by a unit that is kept and ends no line. */
  lemma {:induction false} StripProperties(t: Text)
    ensures forall i :: 0 <= i < |StripBlanks(t)| ==> StripBlanks(t)[i] in t
    ensures NoBlankBeforeLineEnd(StripBlanks(t))
    ensures !BlankToLineEnd(t) ==> StripBlanks(t) != [] && StripBlanks(t)[0] == t[0]
  {
    if t != [] {
      StripProperties(t[1..]);
      if !(IsBlank(t[0]) && BlankToLineEnd(t)) {
        var r := StripBlanks(t);
        assert r[1..] == StripBlanks(t[1..]);
        TailKept(r);
      }
    }
  }

  lemma {:induction false} StripIdentity(t: Text)
    requires NoBlankBeforeLineEnd(t)
    ensures StripBlanks(t) == t
    ensures t != [] && !IsLineEnd(t[0]) ==> !BlankToLineEnd(t)
  {
    if t != [] {
      TailKept(t);
      StripIdentity(t[1..]);
    }
  }

  lemma TrimEndOfLine(body: Text)
    requires body == [] || !IsTrimmable(body[|body| - 1])
    ensures TrimEnd(body + [LF]) == body
  {
    assert (body + [LF])[..|body|] == body;
    assert TrimEnd(body + [LF]) == TrimEnd(body);
  }

  /** Every result is normal, and the normal texts are the fixed points. */
  lemma NormalizeIsNormal(t: Text)
    ensures Normal(Normalize(t))
    ensures Normal(t) <==> Normalize(t) == t
    ensures Normalize(Normalize(t)) == Normalize(t)
  {
    NormalizeGivesNormal(t);
    NormalizeGivesNormal(Normalize(t));
    if Normal(t) {
      NormalIsFixed(t);
    }
    NormalIsFixed(Normalize(t));
  }

  lemma NormalizeGivesNormal(t: Text)
    ensures Normal(Normalize(t))
  {
    var unified := UnifyLineEnds(t);
    UnifyProperties(t);
    StripProperties(unified);
    BodyIsNormal(StripBlanks(unified), TrimEnd(StripBlanks(unified)));
  }

  lemma BodyIsNormal(stripped: Text, body: Text)
    requires body <= stripped && (body == [] || !IsTrimmable(body[|body| - 1]))
    requires NoBlankBeforeLineEnd(stripped) && forall i :: 0 <= i < |stripped| ==> stripped[i] != CR
    ensures Normal(body + [LF])
  {
    var r := body + [LF];
    forall i | 0 <= i < |r| ensures Kept(r, i) && r[i] != CR {
      if i < |body| {
        assert Kept(stripped, i) && r[i] == stripped[i];
        KeptInPrefix(stripped, body, i);
      }
    }
  }

  lemma KeptInPrefix(whole: Text, body: Text, i: nat)
    requires body <= whole && i < |body| && Kept(whole, i) && !IsTrimmable(body[|body| - 1])
    ensures Kept(body + [LF], i)
  {
    if i + 1 < |body| {
      assert body[i] == whole[i] && body[i + 1] == whole[i + 1];
      assert (body + [LF])[i] == body[i] && (body + [LF])[i + 1] == body[i + 1];
    } else {
      assert (body + [LF])[i] == body[|body| - 1];
    }
  }

  lemma NormalIsFixed(t: Text)
    requires Normal(t)
    ensures Normalize(t) == t
  {
    UnifyProperties(t);
    StripIdentity(t);
    var body := t[..|t| - 1];
    assert t == body + [LF];
    TrimEndOfLine(body);
  }

  /** The text as a CRLF checkout stores it. */
  function WithCrlf(t: Text): Text {
    if t == [] then [] else (if t[0] == LF then [CR, LF] else [t[0]]) + WithCrlf(t[1..])
  }

  lemma {:induction false} UnifyCrlf(t: Text)
    requires forall i :: 0 <= i < |t| ==> t[i] != CR
    ensures UnifyLineEnds(WithCrlf(t)) == t
  {
    if t != [] {
      UnifyCrlf(t[1..]);
      if t[0] == LF {
        assert WithCrlf(t)[2..] == WithCrlf(t[1..]);
      } else {
        assert WithCrlf(t)[1..] == WithCrlf(t[1..]);
      }
    }
  }

  /** LF and CRLF checkouts of one file normalise to the same text. */
  lemma LineEndInvariant(t: Text)
    requires forall i :: 0 <= i < |t| ==> t[i] != CR
    ensures Normalize(WithCrlf(t)) == Normalize(t)
  {
    UnifyCrlf(t);
    UnifyProperties(t);
  }

  /** The units that are no white space, in order. */
  function Visible(t: Text): Text {
    if t == [] then [] else VisibleUnit(t[0]) + Visible(t[1..])
  }

  lemma {:induction false} UnifyVisible(t: Text)
    ensures Visible(UnifyLineEnds(t)) == Visible(t)
    decreases |t|
  {
    if t != [] {
      if t[0] == CR && |t| >= 2 && t[1] == LF {
        UnifyVisible(t[2..]);
        assert t[1..][1..] == t[2..];
      } else {
        UnifyVisible(t[1..]);
      }
    }
  }

  lemma {:induction false} StripVisible(t: Text)
    ensures Visible(StripBlanks(t)) == Visible(t)
  {
    if t != [] {
      StripVisible(t[1..]);
    }
  }

  function VisibleUnit(c: CodeUnit): Text { if IsTrimmable(c) then [] else [c] }

  lemma VisibleStep(t: Text)
    requires t != []
    ensures Visible(t) == VisibleUnit(t[0]) + Visible(t[1..])
  {
  }

  lemma Regroup(a: Text, b: Text, c: Text)
    ensures a + (b + c) == (a + b) + c
  {
  }

  lemma {:induction false} VisibleConcat(a: Text, b: Text)
    ensures Visible(a + b) == Visible(a) + Visible(b)
  {
    if a == [] {
      assert a + b == b;
    } else {
      VisibleConcat(a[1..], b);
      assert (a + b)[1..] == a[1..] + b && (a + b)[0] == a[0];
      VisibleStep(a);
      VisibleStep(a + b);
      Regroup(VisibleUnit(a[0]), Visible(a[1..]), Visible(b));
    }
  }

  lemma {:induction false} TrimEndVisible(t: Text)
    ensures Visible(TrimEnd(t)) == Visible(t)
  {
    if t != [] && IsTrimmable(t[|t| - 1]) {
      var init := t[..|t| - 1];
      TrimEndVisible(init);
      assert t == init + [t[|t| - 1]];
      VisibleConcat(init, [t[|t| - 1]]);
    }
  }

  /** Normalising changes white space only. */
  lemma NormalizeKeepsVisible(t: Text)
    ensures Visible(Normalize(t)) == Visible(t)
  {
    UnifyVisible(t);
    StripVisible(UnifyLineEnds(t));
    TrimEndVisible(StripBlanks(UnifyLineEnds(t)));
    VisibleConcat(TrimEnd(StripBlanks(UnifyLineEnds(t))), [LF]);
  }

  // -------------------------------------------------------- rewriting, step by step

  predicate NoCr(t: Text) {
    forall i :: 0 <= i < |t| ==> t[i] != CR
  }

  /** The text is at a place where `$` matches. */
  predicate AtLineEnd(t: Text) { t == [] || t[0] in {0x0A, 0x0D, 0x2028, 0x2029} }

  lemma {:induction false} UnifyAfter(a: Text, t: Text)
    requires NoCr(a)
    ensures UnifyLineEnds(a + t) == a + UnifyLineEnds(t)
  {
    if a == [] {
      assert a + t == t;
    } else {
      assert (a + t)[1..] == a[1..] + t;
      UnifyAfter(a[1..], t);
    }
  }

  /** The first CR, with or without an LF after it, counts as one LF. */
  lemma CrIsLf(a: Text, t: Text)
    requires NoCr(a) && !(t != [] && t[0] == LF)
    ensures Normalize(a + ([CR] + t)) == Normalize(a + ([LF] + t))
  {
    UnifyAfter(a, [CR] + t);
    UnifyAfter(a, [LF] + t);
    assert ([CR] + t)[1..] == t && ([LF] + t)[1..] == t;
  }

  lemma CrLfIsLf(a: Text, t: Text)
    requires NoCr(a)
    ensures Normalize(a + ([CR, LF] + t)) == Normalize(a + ([LF] + t))
  {
    UnifyAfter(a, [CR, LF] + t);
    UnifyAfter(a, [LF] + t);
    assert ([CR, LF] + t)[2..] == t && ([LF] + t)[1..] == t;
  }

  lemma {:induction false} BlankIsNoObstacle(a: Text, blank: CodeUnit, t: Text)
    requires IsBlank(blank) && AtLineEnd(t)
    ensures BlankToLineEnd(a + ([blank] + t)) == BlankToLineEnd(a + t)
  {
    if a == [] {
      assert a + ([blank] + t) == [blank] + t && a + t == t && ([blank] + t)[1..] == t;
    } else {
      assert (a + ([blank] + t))[1..] == a[1..] + ([blank] + t) && (a + t)[1..] == a[1..] + t;
      BlankIsNoObstacle(a[1..], blank, t);
    }
  }

  lemma {:induction false} StripBlankAtLineEnd(a: Text, blank: CodeUnit, t: Text)
    requires IsBlank(blank) && AtLineEnd(t)
    ensures StripBlanks(a + ([blank] + t)) == StripBlanks(a + t)
  {
    if a == [] {
      var u := [blank] + t;
      assert a + u == u && a + t == t && u[1..] == t && u[0] == blank;
      assert BlankToLineEnd(t) && BlankToLineEnd(u);
    } else {
      assert (a + ([blank] + t))[1..] == a[1..] + ([blank] + t) && (a + t)[1..] == a[1..] + t;
      BlankIsNoObstacle(a, blank, t);
      StripBlankAtLineEnd(a[1..], blank, t);
    }
  }

  /** A blank at a line end, or at the end of the text, does not count. */
  lemma BlankAtLineEnd(a: Text, blank: CodeUnit, t: Text)
    requires NoCr(a) && IsBlank(blank) && AtLineEnd(t)
    ensures Normalize(a + ([blank] + t)) == Normalize(a + t)
  {
    UnifyAfter(a, [blank] + t);
    UnifyAfter(a, t);
    assert ([blank] + t)[1..] == t;
    StripBlankAtLineEnd(a, blank, UnifyLineEnds(t));
  }

  lemma {:induction false} BlanksStripToNothing(t: Text)
    requires forall i :: 0 <= i < |t| ==> IsBlank(t[i])
    ensures BlankToLineEnd(t) && StripBlanks(t) == []
  {
    if t != [] {
      BlanksStripToNothing(t[1..]);
    }
  }

  lemma {:induction false} BlankToLineEndFrom(a: Text, w: CodeUnit)
    requires !IsBlank(w)
    ensures IsLineEnd(w) ==> BlankToLineEnd(a + [w]) == BlankToLineEnd(a)
    ensures !IsLineEnd(w) && BlankToLineEnd(a) != BlankToLineEnd(a + [w]) ==> forall i :: 0 <= i < |a| ==> IsBlank(a[i])
  {
    if a != [] {
      assert (a + [w])[1..] == a[1..] + [w];
      BlankToLineEndFrom(a[1..], w);
    }
  }

  lemma {:induction false} TrimEndAppend(x: Text, y: Text)
    ensures TrimEnd(x + y) == if TrimEnd(y) == [] then TrimEnd(x) else x + TrimEnd(y)
  {
    if y == [] {
      assert x + y == x;
    } else {
      var s := x + y;
      assert s[|s| - 1] == y[|y| - 1] && s[..|s| - 1] == x + y[..|y| - 1];
      if IsTrimmable(y[|y| - 1]) {
        TrimEndAppend(x, y[..|y| - 1]);
      }
    }
  }

  lemma {:induction false} StripThenTrim(a: Text, w: CodeUnit)
    requires IsTrimmable(w) && !IsBlank(w)
    ensures TrimEnd(StripBlanks(a + [w])) == TrimEnd(StripBlanks(a))
  {
    if a == [] {
      assert a + [w] == [w] && [w][1..] == [] && [w][..0] == [];
    } else {
      assert (a + [w])[1..] == a[1..] + [w];
      StripThenTrim(a[1..], w);
      BlankToLineEndFrom(a, w);
      var c, x, y := [a[0]], StripBlanks(a[1..] + [w]), StripBlanks(a[1..]);
      TrimEndAppend(c, x);
      TrimEndAppend(c, y);
      if IsBlank(a[0]) && BlankToLineEnd(a) != BlankToLineEnd(a + [w]) {
        BlanksStripToNothing(a);
        BlanksStripToNothing(a[1..]);
        assert TrimEnd(c) == TrimEnd(c[..0]);
      }
    }
  }

  /** White space at the end of the text does not count, so a final LF may be added or left out. */
  lemma SpaceAtEnd(a: Text, w: CodeUnit)
    requires NoCr(a) && IsTrimmable(w) && w != CR
    ensures Normalize(a + [w]) == Normalize(a)
  {
    UnifyProperties(a);
    UnifyProperties(a + [w]);
    if IsBlank(w) {
      assert a + ([w] + []) == a + [w] && a + [] == a;
      StripBlankAtLineEnd(a, w, []);
    } else {
      StripThenTrim(a, w);
    }
  }

  /** Nothing left to rewrite: no blank at a line end, and one LF after a unit that is no white space, or alone. */
  predicate LeftAlone(t: Text) {
    && 0x0D !in t
    && (forall i :: 0 <= i < |t| && t[i] in {0x20, 0x09} ==> !AtLineEnd(t[i + 1..]))
    && t != [] && t[|t| - 1] == 0x0A && (|t| == 1 || t[|t| - 2] !in WHITE_SPACE)
  }

  lemma LeftAloneIsNormal(t: Text)
    requires LeftAlone(t)
    ensures Normal(t)
  {
    if |t| > 1 {
      TrimmableIs(t[|t| - 2]);
    }
    forall i | 0 <= i < |t| ensures Kept(t, i) {
      if IsBlank(t[i]) {
        assert t[i] in {0x20, 0x09};
        assert i + 1 < |t| ==> t[i + 1..][0] == t[i + 1];
      }
    }
  }

  /**
   All that normalising does: a carriage return, a blank at a line end and white space at
   the end of the text can be rewritten away from the left, and what is left is unchanged.
   */
  lemma NormalizeRewrites(a: Text, t: Text, blank: CodeUnit, w: CodeUnit)
    requires 0x0D !in a && blank in {0x20, 0x09} && w in WHITE_SPACE && w != 0x0D
    ensures Normalize(a + ([0x0D, 0x0A] + t)) == Normalize(a + ([0x0A] + t))
    ensures !(t != [] && t[0] == 0x0A) ==> Normalize(a + ([0x0D] + t)) == Normalize(a + ([0x0A] + t))
    ensures AtLineEnd(t) ==> Normalize(a + ([blank] + t)) == Normalize(a + t)
    ensures Normalize(a + [w]) == Normalize(a)
    ensures LeftAlone(a) ==> Normalize(a) == a
  {
    CrLfIsLf(a, t);
    if !(t != [] && t[0] == LF) {
      CrIsLf(a, t);
    }
    if AtLineEnd(t) {
      BlankAtLineEnd(a, blank, t);
    }
    TrimmableIs(w);
    SpaceAtEnd(a, w);
    if LeftAlone(a) {
      LeftAloneIsNormal(a);
      NormalIsFixed(a);
    }
  }
}
