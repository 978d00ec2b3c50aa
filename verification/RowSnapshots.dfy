/**
 snapshotRows, snapshotValues and hash (scripts/card-state-restart-audit.ts): rows are
 printed canonically, sorted as strings and joined by newlines. SHA-256 is taken as
 the identity on the joined text.
 */
module RowSnapshots {
  import opened Utf16
  import opened Wrappers
  import opened Json
  import opened CanonicalJson
  import opened Sorting
  import opened Joining
  import opened PropertyNames

  datatype Snapshot = Snapshot(count: nat, preimage: Text)

  const NEWLINE: CodeUnit := 0x0A

  function CanonicalRows(leq: (Text, Text) -> bool, rows: seq<Value>): (r: seq<Text>)
    ensures |r| == |rows|
    ensures forall i :: 0 <= i < |rows| ==> r[i] == Canonical(leq, rows[i])
  {
    if rows == [] then [] else [Canonical(leq, rows[0])] + CanonicalRows(leq, rows[1..])
  }

  /** leq stands for the localeCompare order of keys; the row texts are sorted by code units. */
  function SnapshotRows(leq: (Text, Text) -> bool, rows: seq<Value>): Snapshot {
    var values := SortBy(CodeUnitLeq, CanonicalRows(leq, rows));
    Snapshot(|values|, Join(values, NEWLINE))
  }

  ghost predicate Rows(rows: seq<Value>) {
    forall row :: row in rows ==> WellKeyed(row)
  }

  lemma CanonicalRowsPrintable(leq: (Text, Text) -> bool, rows: seq<Value>)
    ensures forall t :: t in SortBy(CodeUnitLeq, CanonicalRows(leq, rows)) ==> t != [] && Without(t, NEWLINE)
  {
    var texts := CanonicalRows(leq, rows);
    forall t | t in SortBy(CodeUnitLeq, texts) ensures t != [] && Without(t, NEWLINE) {
      InMultiset(SortBy(CodeUnitLeq, texts), t);
      InMultiset(texts, t);
      var i :| 0 <= i < |rows| && texts[i] == t;
      CanonicalIsStringify(leq, rows[i]);
      StringifySafe(Ordered(leq, rows[i]));
    }
  }

  /** The preimage determines the multiset of row texts, and is determined by it. */
  lemma PreimageDecidesTexts(leq: (Text, Text) -> bool, a: seq<Value>, b: seq<Value>)
    ensures SnapshotRows(leq, a).preimage == SnapshotRows(leq, b).preimage
       <==> multiset(CanonicalRows(leq, a)) == multiset(CanonicalRows(leq, b))
  {
    var x, y := SortBy(CodeUnitLeq, CanonicalRows(leq, a)), SortBy(CodeUnitLeq, CanonicalRows(leq, b));
    CanonicalRowsPrintable(leq, a);
    CanonicalRowsPrintable(leq, b);
    JoinInjective(x, y, NEWLINE);
    assert |x| == 1 ==> x[0] in x;
    assert |y| == 1 ==> y[0] in y;
    CodeUnitOrder();
    SortCanonical(CodeUnitLeq, CanonicalRows(leq, a), CanonicalRows(leq, b));
  }

  /** What is hashed: as many lines as rows, the printed rows themselves, in increasing order. */
  lemma SnapshotIs(leq: (Text, Text) -> bool, rows: seq<Value>) returns (lines: seq<Text>)
    ensures SnapshotRows(leq, rows) == Snapshot(|rows|, Join(lines, 0x0A))
    ensures multiset(lines) == multiset(CanonicalRows(leq, rows))
    ensures forall i, j :: 0 <= i < j < |lines| ==> lines[i] == lines[j] || Precedes(lines[i], lines[j])
  {
    lines := SortBy(CodeUnitLeq, CanonicalRows(leq, rows));
    CodeUnitOrder();
    SortBySorted(CodeUnitLeq, CanonicalRows(leq, rows));
    forall i, j | 0 <= i < j < |lines| ensures lines[i] == lines[j] || Precedes(lines[i], lines[j]) {
      CodeUnitLeqIs(lines[i], lines[j]);
    }
  }

  function RemoveAt<T>(s: seq<T>, j: nat): (r: seq<T>)
    requires j < |s|
    ensures |r| == |s| - 1
    ensures forall i :: 0 <= i < |r| ==> r[i] == s[if i < j then i else i + 1]
    ensures multiset(s) == multiset(r) + multiset{s[j]}
  {
    assert s == s[..j] + ([s[j]] + s[j + 1..]);
    s[..j] + s[j + 1..]
  }

  /** Two lists with images x and y: equal elements have equal images, so permutations have permuted images. */
  lemma {:induction false} ImagesPermute<T, U>(a: seq<T>, b: seq<T>, x: seq<U>, y: seq<U>)
    requires |a| == |x| && |b| == |y|
    requires forall i, j :: 0 <= i < |a| && 0 <= j < |b| && a[i] == b[j] ==> x[i] == y[j]
    requires multiset(a) == multiset(b)
    ensures multiset(x) == multiset(y)
  {
    assert |multiset(a)| == |a| && |multiset(b)| == |b|;
    if a != [] {
      assert a[0] in multiset(b);
      var j :| 0 <= j < |b| && b[j] == a[0];
      var b', y' := RemoveAt(b, j), RemoveAt(y, j);
      MultisetTail(a);
      forall i, k | 0 <= i < |a[1..]| && 0 <= k < |b'| && a[1..][i] == b'[k] ensures x[1..][i] == y'[k] {
        assert a[i + 1] == b[if k < j then k else k + 1];
      }
      ImagesPermute(a[1..], b', x[1..], y');
      OneMore(x, y', y, j);
    }
  }

  lemma OneMore<U>(x: seq<U>, y': seq<U>, y: seq<U>, j: nat)
    requires x != [] && j < |y| && y[j] == x[0] && y' == RemoveAt(y, j)
    requires multiset(x[1..]) == multiset(y')
    ensures multiset(x) == multiset(y)
  {
    MultisetTail(x);
    assert multiset(x) == multiset(x[1..]) + multiset{x[0]};
  }

  /**
   The audit compares what it means to compare: two row lists have one snapshot
   preimage exactly when they hold the same rows, as finite maps, equally often.
   */
  lemma SnapshotDecides(leq: (Text, Text) -> bool, a: seq<Value>, b: seq<Value>)
    requires TotalOrder(leq) && Rows(a) && Rows(b)
    ensures SnapshotRows(leq, a).preimage == SnapshotRows(leq, b).preimage
       <==> multiset(Meanings(a)) == multiset(Meanings(b))
  {
    PreimageDecidesTexts(leq, a, b);
    var s, t := CanonicalRows(leq, a), CanonicalRows(leq, b);
    forall i, j | 0 <= i < |a| && 0 <= j < |b| ensures s[i] == t[j] <==> Meanings(a)[i] == Meanings(b)[j] {
      assert a[i] in a && b[j] in b;
      CanonicalDecides(leq, a[i], b[j]);
    }
    if multiset(s) == multiset(t) {
      ImagesPermute(s, t, Meanings(a), Meanings(b));
    }
    if multiset(Meanings(a)) == multiset(Meanings(b)) {
      ImagesPermute(Meanings(a), Meanings(b), s, t);
    }
  }

  /** Soundness needs no order of keys at all: equal preimages mean equal multisets of rows. */
  lemma SnapshotDetermines(leq: (Text, Text) -> bool, a: seq<Value>, b: seq<Value>)
    requires Rows(a) && Rows(b)
    requires SnapshotRows(leq, a).preimage == SnapshotRows(leq, b).preimage
    ensures multiset(Meanings(a)) == multiset(Meanings(b))
  {
    PreimageDecidesTexts(leq, a, b);
    var s, t := CanonicalRows(leq, a), CanonicalRows(leq, b);
    forall i, j | 0 <= i < |a| && 0 <= j < |b| && s[i] == t[j] ensures Meanings(a)[i] == Meanings(b)[j] {
      assert a[i] in a && b[j] in b;
      CanonicalDetermines(leq, a[i], b[j]);
    }
    ImagesPermute(s, t, Meanings(a), Meanings(b));
  }

  // ------------------------------------------------------------- whole tables

  ghost predicate Lists<R>(walk: seq<Text>, table: map<Text, R>) {
    Distinct(walk) && forall k :: k in walk <==> k in table
  }

  ghost predicate SameTables<R>(same: (R, R) -> bool, a: map<Text, R>, b: map<Text, R>) {
    a.Keys == b.Keys && forall k :: k in a ==> same(a[k], b[k])
  }

  /** s and t print the rows of two tables, and tell keys and rows apart as `same` does. */
  ghost predicate Prints<R>(
      same: (R, R) -> bool, s: seq<Value>, x: seq<Text>, a: map<Text, R>, t: seq<Value>, y: seq<Text>, b: map<Text, R>)
  {
    && Lists(x, a) && Lists(y, b) && |s| == |x| && |t| == |y|
    && Rows(s) && Rows(t)
    && forall i, j :: 0 <= i < |x| && 0 <= j < |y| ==>
      (Meaning(s[i]) == Meaning(t[j]) <==> x[i] == y[j] && same(a[x[i]], b[y[j]]))
  }

  lemma RowFound<R>(
      same: (R, R) -> bool, s: seq<Value>, x: seq<Text>, a: map<Text, R>, t: seq<Value>, y: seq<Text>, b: map<Text, R>, i: nat)
    requires Prints(same, s, x, a, t, y, b) && i < |x|
    requires multiset(Meanings(s)) == multiset(Meanings(t))
    ensures x[i] in b && same(a[x[i]], b[x[i]])
  {
    var u, v := Meanings(s), Meanings(t);
    InMultiset(u, u[i]);
    InMultiset(v, u[i]);
    var j :| 0 <= j < |v| && v[j] == u[i];
    assert Meaning(s[i]) == Meaning(t[j]);
    assert y[j] in y;
  }

  lemma EqualSnapshotsIncluded<R>(
      same: (R, R) -> bool, s: seq<Value>, x: seq<Text>, a: map<Text, R>, t: seq<Value>, y: seq<Text>, b: map<Text, R>)
    requires Prints(same, s, x, a, t, y, b)
    requires multiset(Meanings(s)) == multiset(Meanings(t))
    ensures SameTables(same, a, b)
  {
    forall k | k in a ensures k in b && same(a[k], b[k]) {
      var i :| 0 <= i < |x| && x[i] == k;
      RowFound(same, s, x, a, t, y, b, i);
    }
    forall k | k in b ensures k in a {
      var u, v := Meanings(s), Meanings(t);
      var j :| 0 <= j < |y| && y[j] == k;
      InMultiset(v, v[j]);
      InMultiset(u, v[j]);
      var i :| 0 <= i < |u| && u[i] == v[j];
      assert Meaning(s[i]) == Meaning(t[j]);
      assert x[i] in x;
    }
  }

  lemma SameTablesPermute<R>(
      same: (R, R) -> bool, s: seq<Value>, x: seq<Text>, a: map<Text, R>, t: seq<Value>, y: seq<Text>, b: map<Text, R>)
    requires Prints(same, s, x, a, t, y, b) && SameTables(same, a, b)
    ensures multiset(Meanings(s)) == multiset(Meanings(t))
  {
    SameListings(x, a, y, b);
    var u, v := Meanings(s), Meanings(t);
    forall i, j | 0 <= i < |x| && 0 <= j < |y| && x[i] == y[j] ensures u[i] == v[j] {
      assert x[i] in x;
    }
    ImagesPermute(x, y, u, v);
  }

  lemma SameListings<R>(x: seq<Text>, a: map<Text, R>, y: seq<Text>, b: map<Text, R>)
    requires Lists(x, a) && Lists(y, b) && a.Keys == b.Keys
    ensures multiset(x) == multiset(y)
  {
    forall k ensures k in x <==> k in y {
      assert k in a.Keys <==> k in b.Keys;
    }
    SameElementsSameMultiset(x, y);
  }

  /** Two tables have one snapshot exactly when they hold the same rows under the same keys. */
  lemma TableSnapshotDecides<R>(
      leq: (Text, Text) -> bool,
      same: (R, R) -> bool, s: seq<Value>, x: seq<Text>, a: map<Text, R>, t: seq<Value>, y: seq<Text>, b: map<Text, R>)
    requires TotalOrder(leq) && Prints(same, s, x, a, t, y, b)
    ensures SnapshotRows(leq, s) == SnapshotRows(leq, t) <==> SameTables(same, a, b)
  {
    SnapshotDecides(leq, s, t);
    if multiset(Meanings(s)) == multiset(Meanings(t)) {
      EqualSnapshotsIncluded(same, s, x, a, t, y, b);
    }
    if SameTables(same, a, b) {
      SameTablesPermute(same, s, x, a, t, y, b);
      assert |multiset(Meanings(s))| == |s| && |multiset(Meanings(t))| == |t|;
    }
  }

  /** Without an order of keys: equal snapshots still mean the same rows under the same keys. */
  lemma TableSnapshotDetermines<R>(
      leq: (Text, Text) -> bool,
      same: (R, R) -> bool, s: seq<Value>, x: seq<Text>, a: map<Text, R>, t: seq<Value>, y: seq<Text>, b: map<Text, R>)
    requires Prints(same, s, x, a, t, y, b) && SnapshotRows(leq, s) == SnapshotRows(leq, t)
    ensures SameTables(same, a, b)
  {
    SnapshotDetermines(leq, s, t);
    EqualSnapshotsIncluded(same, s, x, a, t, y, b);
  }

  /** … and the same printed rows, in any order, give equal snapshots. */
  lemma PermutedRows(leq: (Text, Text) -> bool, s: seq<Value>, t: seq<Value>)
    requires multiset(s) == multiset(t)
    ensures SnapshotRows(leq, s) == SnapshotRows(leq, t)
  {
    ImagesPermute(s, t, CanonicalRows(leq, s), CanonicalRows(leq, t));
    PreimageDecidesTexts(leq, s, t);
    assert |multiset(s)| == |s| && |multiset(t)| == |t|;
  }

  /** One table, listed twice. */
  lemma TableListedTwice<R>(
      leq: (Text, Text) -> bool, a: map<Text, R>, s: seq<Value>, x: seq<Text>, t: seq<Value>, y: seq<Text>)
    requires Lists(x, a) && Lists(y, a) && |s| == |x| && |t| == |y|
    requires forall i, j :: 0 <= i < |x| && 0 <= j < |y| && x[i] == y[j] ==> s[i] == t[j]
    ensures SnapshotRows(leq, s) == SnapshotRows(leq, t)
  {
    SameListings(x, a, y, a);
    ImagesPermute(x, y, s, t);
    PermutedRows(leq, s, t);
  }

  // ------------------------------------------------------- rows as JSON objects

  /** An object with the given property names and values, in this order. */
  function RowOf(names: seq<string>, values: seq<Value>): Value
    requires |names| == |values|
  {
    Obj(RowMembers(names, values))
  }

  function RowMembers(names: seq<string>, values: seq<Value>): (r: seq<Member>)
    requires |names| == |values|
    ensures |r| == |names|
    ensures forall i :: 0 <= i < |names| ==> r[i] == Member(Ascii(names[i]), values[i])
  {
    if names == [] then [] else [Member(Ascii(names[0]), values[0])] + RowMembers(names[1..], values[1..])
  }

  lemma RowWellKeyed(names: seq<string>, values: seq<Value>)
    requires |names| == |values| && DistinctNames(names) && forall v :: v in values ==> WellKeyed(v)
    ensures WellKeyed(RowOf(names, values))
  {
  }

  lemma RowMeaning(names: seq<string>, x: seq<Value>, y: seq<Value>)
    requires |names| == |x| == |y| && DistinctNames(names)
    ensures Meaning(RowOf(names, x)) == Meaning(RowOf(names, y)) <==> Meanings(x) == Meanings(y)
  {
    if Meaning(RowOf(names, x)) == Meaning(RowOf(names, y)) {
      forall i | 0 <= i < |names| ensures Meaning(x[i]) == Meaning(y[i]) {
        ColumnOf(names, x, i);
        ColumnOf(names, y, i);
      }
      assert Meanings(x) == Meanings(y);
    }
    if Meanings(x) == Meanings(y) {
      forall i | 0 <= i < |names| ensures Meaning(x[i]) == Meaning(y[i]) {
        assert Meanings(x)[i] == Meanings(y)[i];
      }
      FieldsCongruent(RowMembers(names, x), RowMembers(names, y));
    }
  }

  lemma ColumnOf(names: seq<string>, x: seq<Value>, i: nat)
    requires |names| == |x| && DistinctNames(names) && i < |names|
    ensures
      var fields := Meaning(RowOf(names, x)).fields;
      Ascii(names[i]) in fields && fields[Ascii(names[i])] == Meaning(x[i])
  {
    var a := RowMembers(names, x);
    FieldsOf(a);
    assert a[i] in a;
  }

  /** The object has the property, with this meaning. */
  predicate Has(row: Value, name: string, tree: Tree) {
    row.Obj? && Ascii(name) in Meaning(row).fields && Meaning(row).fields[Ascii(name)] == tree
  }

  lemma {:induction false} FieldsCongruent(a: seq<Member>, b: seq<Member>)
    requires |a| == |b|
    requires forall i :: 0 <= i < |a| ==> a[i].key == b[i].key && Meaning(a[i].value) == Meaning(b[i].value)
    ensures Fields(a) == Fields(b)
  {
    if a != [] {
      FieldsCongruent(a[1..], b[1..]);
    }
  }

  function NullableText(t: Option<Text>): Value {
    match t
    case None => Null
    case Some(s) => Str(s)
  }

  function NullableNumber(n: Option<int>): Value {
    match n
    case None => Null
    case Some(k) => Num(k)
  }

  function NullableFlag(b: Option<bool>): Value {
    match b
    case None => Null
    case Some(flag) => Bool(flag)
  }

  lemma FourEqual<T>(u: seq<T>, v: seq<T>)
    requires |u| == |v| == 4
    ensures u == v <==> u[0] == v[0] && u[1] == v[1] && u[2] == v[2] && u[3] == v[3]
  {
  }

  lemma ThreeEqual<T>(u: seq<T>, v: seq<T>)
    requires |u| == |v| == 3
    ensures u == v <==> u[0] == v[0] && u[1] == v[1] && u[2] == v[2]
  {
  }

  /** Four columns at a time. */
  lemma FourColumns(x: seq<Value>, y: seq<Value>)
    requires |x| == |y| == 4
    ensures Meanings(x) == Meanings(y) <==>
      && Meaning(x[0]) == Meaning(y[0]) && Meaning(x[1]) == Meaning(y[1])
      && Meaning(x[2]) == Meaning(y[2]) && Meaning(x[3]) == Meaning(y[3])
  {
    FourEqual(Meanings(x), Meanings(y));
  }

  lemma ThreeColumns(x: seq<Value>, y: seq<Value>)
    requires |x| == |y| == 3
    ensures Meanings(x) == Meanings(y) <==>
      Meaning(x[0]) == Meaning(y[0]) && Meaning(x[1]) == Meaning(y[1]) && Meaning(x[2]) == Meaning(y[2])
  {
    ThreeEqual(Meanings(x), Meanings(y));
  }

  lemma MeaningsConcat(a: seq<Value>, x: seq<Value>)
    ensures Meanings(a + x) == Meanings(a) + Meanings(x)
  {
    var whole, parts := Meanings(a + x), Meanings(a) + Meanings(x);
    forall i | 0 <= i < |a + x| ensures whole[i] == parts[i] {
      assert whole[i] == Meaning((a + x)[i]);
      if i < |a| {
        assert parts[i] == Meanings(a)[i] == Meaning(a[i]);
      } else {
        assert parts[i] == Meanings(x)[i - |a|] == Meaning(x[i - |a|]);
      }
    }
  }

  lemma ConcatSplits<T>(a: seq<T>, b: seq<T>, x: seq<T>, y: seq<T>)
    requires |a| == |b|
    ensures a + x == b + y <==> a == b && x == y
  {
    assert (a + x)[..|a|] == a && (b + y)[..|b|] == b;
    assert (a + x)[|a|..] == x && (b + y)[|b|..] == y;
  }

  lemma ColumnsConcat(a: seq<Value>, b: seq<Value>, x: seq<Value>, y: seq<Value>)
    requires |a| == |b|
    ensures Meanings(a + x) == Meanings(b + y) <==> Meanings(a) == Meanings(b) && Meanings(x) == Meanings(y)
  {
    MeaningsConcat(a, x);
    MeaningsConcat(b, y);
    ConcatSplits(Meanings(a), Meanings(b), Meanings(x), Meanings(y));
  }
}
