/**
 JavaScript strings: sequences of UTF-16 code units, which may hold unpaired
 surrogates. `WellFormed` is the check of src/textIntegrity.ts.
 */
module Utf16 {
  type CodeUnit = n: int | 0 <= n < 0x10000

  type Text = seq<CodeUnit>

  /** The code units of a string literal; every literal in this project is ASCII. */
  function Ascii(s: string): (t: Text)
    ensures |t| == |s|
    ensures NoSurrogates(t)
  {
    seq(|s|, i requires 0 <= i < |s| => (s[i] as int) % 0x80)
  }

  predicate IsHighSurrogate(c: CodeUnit) { 0xD800 <= c <= 0xDBFF }

  predicate IsLowSurrogate(c: CodeUnit) { 0xDC00 <= c <= 0xDFFF }

  predicate IsSurrogate(c: CodeUnit) { 0xD800 <= c <= 0xDFFF }

  /** Every high surrogate is directly followed by a low one, and no low one stands alone. */
  predicate WellFormed(t: Text) {
    if t == [] then true
    else if StartsWithPair(t) then WellFormed(t[2..])
    else !IsSurrogate(t[0]) && WellFormed(t[1..])
  }

  predicate StartsWithPair(t: Text) {
    |t| >= 2 && IsHighSurrogate(t[0]) && IsLowSurrogate(t[1])
  }

  predicate NoSurrogates(t: Text) {
    forall i :: 0 <= i < |t| ==> !IsSurrogate(t[i])
  }

  lemma {:induction false} NoSurrogatesWellFormed(t: Text)
    requires NoSurrogates(t)
    ensures WellFormed(t)
  {
    if t != [] {
      assert !IsSurrogate(t[0]);
      NoSurrogatesWellFormed(t[1..]);
    }
  }

  /** A surrogate at i is one half of a pair. */
  predicate Paired(t: Text, i: nat)
    requires i < |t|
  {
    && (IsHighSurrogate(t[i]) ==> i + 1 < |t| && IsLowSurrogate(t[i + 1]))
    && (IsLowSurrogate(t[i]) ==> i > 0 && IsHighSurrogate(t[i - 1]))
  }

  /** Well-formed texts are those in which every surrogate is paired, wherever it stands. */
  lemma {:induction false} WellFormedExactly(t: Text)
    ensures WellFormed(t) <==> forall i :: 0 <= i < |t| ==> Paired(t, i)
  {
    if StartsWithPair(t) {
      var rest := t[2..];
      WellFormedExactly(rest);
      if forall i :: 0 <= i < |t| ==> Paired(t, i) {
        forall i | 0 <= i < |rest| ensures Paired(rest, i) {
          assert Paired(t, i + 2);
        }
      }
      if WellFormed(t) {
        forall i | 0 <= i < |t| ensures Paired(t, i) {
          assert i < 2 || Paired(rest, i - 2);
        }
      }
    } else if t != [] {
      var rest := t[1..];
      WellFormedExactly(rest);
      if forall i :: 0 <= i < |t| ==> Paired(t, i) {
        assert Paired(t, 0);
        forall i | 0 <= i < |rest| ensures Paired(rest, i) {
          assert Paired(t, i + 1);
        }
      }
      if WellFormed(t) {
        forall i | 0 <= i < |t| ensures Paired(t, i) {
          assert i < 1 || Paired(rest, i - 1);
        }
      }
    }
  }

  /** Dropping a final unit that is no surrogate keeps a text well formed. */
  lemma {:induction false} WellFormedInit(t: Text)
    requires t != [] && !IsSurrogate(t[|t| - 1]) && WellFormed(t)
    ensures WellFormed(t[..|t| - 1])
  {
    var init := t[..|t| - 1];
    if init != [] {
      if StartsWithPair(t) {
        assert |t| > 2;
        assert t[2..][..|t| - 3] == init[2..];
        WellFormedInit(t[2..]);
      } else {
        assert t[1..][..|t| - 2] == init[1..];
        WellFormedInit(t[1..]);
      }
    }
  }

  // ---------------------------------------------------------------- trimming

  /** The white space and line terminators that String.prototype.trim removes. */
  predicate IsTrimmable(c: CodeUnit) {
    || 0x09 <= c <= 0x0D
    || c == 0x20
    || c == 0xA0
    || c == 0x1680
    || 0x2000 <= c <= 0x200A
    || c == 0x2028 || c == 0x2029
    || c == 0x202F || c == 0x205F || c == 0x3000 || c == 0xFEFF
  }

  function TrimStart(t: Text): (r: Text)
    ensures r == [] || !IsTrimmable(r[0])
    ensures t == [] || IsTrimmable(t[0]) || r == t
    ensures WellFormed(t) ==> WellFormed(r)
  {
    if t != [] && IsTrimmable(t[0]) then TrimStart(t[1..]) else t
  }

  function TrimEnd(t: Text): (r: Text)
    ensures r <= t
    ensures r == [] || !IsTrimmable(r[|r| - 1])
    ensures forall i :: |r| <= i < |t| ==> IsTrimmable(t[i])
  {
    if t != [] && IsTrimmable(t[|t| - 1]) then TrimEnd(t[..|t| - 1]) else t
  }

  function Trim(t: Text): Text {
    TrimEnd(TrimStart(t))
  }

  predicate Trimmed(t: Text) {
    t == [] || (!IsTrimmable(t[0]) && !IsTrimmable(t[|t| - 1]))
  }

  lemma {:induction false} TrimEndWellFormed(t: Text)
    requires WellFormed(t)
    ensures WellFormed(TrimEnd(t))
  {
    if t != [] && IsTrimmable(t[|t| - 1]) {
      WellFormedInit(t);
      TrimEndWellFormed(t[..|t| - 1]);
    }
  }

  /** Trimming gives a trimmed text, is the identity on trimmed ones, and keeps well-formedness. */
  lemma TrimProperties(t: Text)
    ensures Trimmed(Trim(t))
    ensures Trimmed(t) ==> Trim(t) == t
    ensures WellFormed(t) ==> WellFormed(Trim(t))
  {
    var s := TrimStart(t);
    if TrimEnd(s) != [] {
      assert TrimEnd(s)[0] == s[0];
    }
    if WellFormed(t) {
      TrimEndWellFormed(s);
    }
  }

  /** White space and line terminators of ECMAScript, one by one. */
  const WHITE_SPACE: set<CodeUnit> := {
    0x09, 0x0A, 0x0B, 0x0C, 0x0D, 0x20, 0xA0, 0x1680, 0x2000, 0x2001, 0x2002, 0x2003, 0x2004, 0x2005,
    0x2006, 0x2007, 0x2008, 0x2009, 0x200A, 0x2028, 0x2029, 0x202F, 0x205F, 0x3000, 0xFEFF}

  predicate AllTrimmable(t: Text) {
    forall i :: 0 <= i < |t| ==> t[i] in WHITE_SPACE
  }

  lemma TrimmableIs(c: CodeUnit)
    ensures IsTrimmable(c) <==> c in WHITE_SPACE
  {
  }

  lemma {:induction false} TrimStartDrops(t: Text) returns (lead: Text)
    ensures AllTrimmable(lead) && t == lead + TrimStart(t)
  {
    lead := [];
    if t != [] && IsTrimmable(t[0]) {
      var rest := TrimStartDrops(t[1..]);
      TrimmableIs(t[0]);
      lead := [t[0]] + rest;
      assert lead + TrimStart(t) == [t[0]] + (rest + TrimStart(t[1..]));
    }
  }

  lemma TrimEndDrops(t: Text) returns (trail: Text)
    ensures AllTrimmable(trail) && t == TrimEnd(t) + trail
  {
    trail := t[|TrimEnd(t)|..];
    forall i | 0 <= i < |trail| ensures trail[i] in WHITE_SPACE {
      TrimmableIs(t[|TrimEnd(t)| + i]);
    }
  }

  lemma TrimEdges(t: Text)
    ensures Trim(t) != [] ==> Trim(t)[0] !in WHITE_SPACE && Trim(t)[|Trim(t)| - 1] !in WHITE_SPACE
  {
    TrimProperties(t);
    if Trim(t) != [] {
      TrimmableIs(Trim(t)[0]);
      TrimmableIs(Trim(t)[|Trim(t)| - 1]);
    }
  }

  /** Trimming drops all white space at both ends and nothing else. */
  lemma TrimDrops(t: Text) returns (lead: Text, trail: Text)
    ensures AllTrimmable(lead) && AllTrimmable(trail) && t == lead + (Trim(t) + trail)
    ensures Trim(t) != [] ==> Trim(t)[0] !in WHITE_SPACE && Trim(t)[|Trim(t)| - 1] !in WHITE_SPACE
  {
    lead := TrimStartDrops(t);
    trail := TrimEndDrops(TrimStart(t));
    TrimEdges(t);
  }

  // ------------------------------------------------------- code unit ordering

  /** The order of Array.prototype.sort without a comparator, and of `<=` on strings. */
  predicate CodeUnitLeq(a: Text, b: Text) {
    if a == [] then true
    else if b == [] then false
    else if a[0] != b[0] then a[0] < b[0]
    else CodeUnitLeq(a[1..], b[1..])
  }

  /** A proper prefix comes first, and otherwise the first different unit decides. */
  ghost predicate Precedes(a: Text, b: Text) {
    || a < b
    || exists k :: 0 <= k < |a| && k < |b| && a[..k] == b[..k] && a[k] < b[k]
  }

  lemma {:induction false} CodeUnitLeqIs(a: Text, b: Text)
    ensures CodeUnitLeq(a, b) <==> a == b || Precedes(a, b)
  {
    if a != [] && b != [] {
      var c, d := a[1..], b[1..];
      if a[0] != b[0] {
        if a[0] < b[0] {
          assert a[..0] == b[..0];
        }
      } else {
        CodeUnitLeqIs(c, d);
        assert a == [a[0]] + c && b == [b[0]] + d;
        if k :| 0 <= k < |c| && k < |d| && c[..k] == d[..k] && c[k] < d[k] {
          assert a[..k + 1] == [a[0]] + c[..k] && b[..k + 1] == [b[0]] + d[..k];
          assert a[k + 1] < b[k + 1];
        }
        if k :| 0 <= k < |a| && k < |b| && a[..k] == b[..k] && a[k] < b[k] {
          assert k > 0;
          assert c[..k - 1] == a[..k][1..] && d[..k - 1] == b[..k][1..];
          assert c[k - 1] < d[k - 1];
        }
        assert a < b <==> c < d;
      }
    }
  }

  lemma {:induction false} CodeUnitLeqTotal(a: Text, b: Text)
    ensures CodeUnitLeq(a, b) || CodeUnitLeq(b, a)
  {
    if a != [] && b != [] && a[0] == b[0] {
      CodeUnitLeqTotal(a[1..], b[1..]);
    }
  }

  lemma {:induction false} CodeUnitLeqAntisymmetric(a: Text, b: Text)
    requires CodeUnitLeq(a, b) && CodeUnitLeq(b, a)
    ensures a == b
  {
    if a != [] && b != [] {
      CodeUnitLeqAntisymmetric(a[1..], b[1..]);
      assert a == [a[0]] + a[1..] && b == [b[0]] + b[1..];
    }
  }

  lemma {:induction false} CodeUnitLeqTransitive(a: Text, b: Text, c: Text)
    requires CodeUnitLeq(a, b) && CodeUnitLeq(b, c)
    ensures CodeUnitLeq(a, c)
  {
    if a != [] && b != [] && c != [] && a[0] == b[0] == c[0] {
      CodeUnitLeqTransitive(a[1..], b[1..], c[1..]);
    }
  }
}
