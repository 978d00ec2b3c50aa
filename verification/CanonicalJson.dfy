/**
 The two canonical printers of the audit scripts and what they decide.

 `StableJson` (scripts/app-server-schema.ts) sorts the keys of an object and looks
 each one up; `Canonical` (scripts/card-state-restart-audit.ts) sorts its entries by
 a comparison of their keys. Both are Stringify after sorting, so the reader of
 module Json recovers what they print, and two printed texts are equal exactly when
 the two values mean the same finite tree.
 */
module CanonicalJson {
  import opened Utf16
  import opened Wrappers
  import opened Json
  import opened Sorting

  /** What a JSON value means: objects are finite maps, without an order. */
  datatype Tree =
    | NullTree
    | BoolTree(flag: bool)
    | NumTree(number: int)
    | StrTree(text: Text)
    | ArrTree(items: seq<Tree>)
    | ObjTree(fields: map<Text, Tree>)

  function Meaning(v: Value): Tree {
    match v
    case Null => NullTree
    case Bool(flag) => BoolTree(flag)
    case Num(n) => NumTree(n)
    case Str(s) => StrTree(s)
    case Arr(items) => ArrTree(Meanings(items))
    case Obj(members) => ObjTree(Fields(members))
  }

  function Meanings(items: seq<Value>): (r: seq<Tree>)
    ensures |r| == |items|
    ensures forall i :: 0 <= i < |items| ==> r[i] == Meaning(items[i])
  {
    if items == [] then [] else [Meaning(items[0])] + Meanings(items[1..])
  }

  /** The first of two members with one key is overwritten by the second. */
  function Fields(members: seq<Member>): map<Text, Tree> {
    if members == [] then map[]
    else map[members[0].key := Meaning(members[0].value)] + Fields(members[1..])
  }

  // ------------------------------------------------------------ the printers

  function KeyOf(m: Member): Text { m.key }

  /** Members compared by their keys. */
  function ByKey(leq: (Text, Text) -> bool): (Member, Member) -> bool {
    (a: Member, b: Member) => leq(a.key, b.key)
  }

  predicate HasKey(members: seq<Member>, key: Text) {
    exists m :: m in members && m.key == key
  }

  /** `value[key]`. */
  function FindMember(members: seq<Member>, key: Text): (m: Member)
    requires HasKey(members, key)
    ensures m in members && m.key == key
  {
    if members[0].key == key then members[0] else FindMember(members[1..], key)
  }

  function StableJson(v: Value): Text
    decreases v
  {
    match v
    case Arr(items) => [LBRACKET] + StableItems(items) + [RBRACKET]
    case Obj(members) => [LBRACE] + StableMembers(SortedKeys(members), v) + [RBRACE]
    case _ => Stringify(v)
  }

  function StableItems(items: seq<Value>): Text
    decreases items
  {
    if items == [] then []
    else if |items| == 1 then StableJson(items[0])
    else StableJson(items[0]) + [COMMA] + StableItems(items[1..])
  }

  /** `Object.keys(value).sort()`. */
  function SortedKeys(members: seq<Member>): (keys: seq<Text>)
    ensures forall k :: k in keys ==> HasKey(members, k)
  {
    var keys := SortBy(CodeUnitLeq, Map(KeyOf, members));
    assert forall k :: k in keys ==> HasKey(members, k) by {
      forall k | k in keys ensures HasKey(members, k) {
        InMultiset(keys, k);
        InMultiset(Map(KeyOf, members), k);
        var i :| 0 <= i < |members| && KeyOf(members[i]) == k;
        assert members[i] in members;
      }
    }
    keys
  }

  function StableMembers(keys: seq<Text>, owner: Value): Text
    requires owner.Obj? && forall k :: k in keys ==> HasKey(owner.members, k)
    decreases owner, |keys|
  {
    if keys == [] then []
    else
      assert keys[0] in keys;
      assert forall k :: k in keys[1..] ==> k in keys;
      var m := FindMember(owner.members, keys[0]);
      var first := Quote(keys[0]) + [COLON] + StableJson(m.value);
      if |keys| == 1 then first else first + [COMMA] + StableMembers(keys[1..], owner)
  }

  function Canonical(leq: (Text, Text) -> bool, v: Value): Text
    decreases v
  {
    match v
    case Arr(items) => [LBRACKET] + CanonicalItems(leq, items) + [RBRACKET]
    case Obj(members) =>
      var sorted := SortBy(ByKey(leq), members);
      SortKeepsMembers(leq, members);
      [LBRACE] + CanonicalMembers(leq, sorted, v) + [RBRACE]
    case _ => Stringify(v)
  }

  function CanonicalItems(leq: (Text, Text) -> bool, items: seq<Value>): Text
    decreases items
  {
    if items == [] then []
    else if |items| == 1 then Canonical(leq, items[0])
    else Canonical(leq, items[0]) + [COMMA] + CanonicalItems(leq, items[1..])
  }

  function CanonicalMembers(leq: (Text, Text) -> bool, sorted: seq<Member>, ghost owner: Value): Text
    requires owner.Obj? && forall m :: m in sorted ==> m in owner.members
    decreases owner, |sorted|
  {
    if sorted == [] then []
    else
      var m := sorted[0];
      assert m in owner.members && m.value < m;
      var first := Quote(m.key) + [COLON] + Canonical(leq, m.value);
      if |sorted| == 1 then first else first + [COMMA] + CanonicalMembers(leq, sorted[1..], owner)
  }

  lemma SortKeepsMembers(leq: (Text, Text) -> bool, members: seq<Member>)
    ensures forall m :: m in SortBy(ByKey(leq), members) <==> m in members
  {
    forall m ensures m in SortBy(ByKey(leq), members) <==> m in members {
      InMultiset(members, m);
      InMultiset(SortBy(ByKey(leq), members), m);
    }
  }

  // ------------------------------------------------ both are sort, then print

  /** The value with the members of every object sorted by key. */
  function Ordered(leq: (Text, Text) -> bool, v: Value): Value {
    match v
    case Arr(items) => Arr(OrderedItems(leq, items))
    case Obj(members) => Obj(SortBy(ByKey(leq), OrderedMembers(leq, members)))
    case _ => v
  }

  function OrderedItems(leq: (Text, Text) -> bool, items: seq<Value>): (r: seq<Value>)
    ensures |r| == |items|
    ensures forall i :: 0 <= i < |items| ==> r[i] == Ordered(leq, items[i])
  {
    if items == [] then [] else [Ordered(leq, items[0])] + OrderedItems(leq, items[1..])
  }

  function OrderedMembers(leq: (Text, Text) -> bool, members: seq<Member>): (r: seq<Member>)
    ensures |r| == |members|
    ensures forall i :: 0 <= i < |members| ==> r[i] == OrderedMember(leq, members[i])
  {
    if members == [] then []
    else [OrderedMember(leq, members[0])] + OrderedMembers(leq, members[1..])
  }

  function OrderedMember(leq: (Text, Text) -> bool, m: Member): Member {
    Member(m.key, Ordered(leq, m.value))
  }

  lemma OrderedMembersIsMap(leq: (Text, Text) -> bool, members: seq<Member>)
    ensures OrderedMembers(leq, members) == Map((m: Member) => OrderedMember(leq, m), members)
  {
  }

  /** Sorting entries first and ordering their values later makes no difference. */
  lemma SortThenOrder(leq: (Text, Text) -> bool, members: seq<Member>)
    ensures OrderedMembers(leq, SortBy(ByKey(leq), members)) == SortBy(ByKey(leq), OrderedMembers(leq, members))
  {
    var f := (m: Member) => OrderedMember(leq, m);
    SortMap(f, ByKey(leq), ByKey(leq), members);
    OrderedMembersIsMap(leq, members);
    OrderedMembersIsMap(leq, SortBy(ByKey(leq), members));
    assert forall m :: f(m) == OrderedMember(leq, m);
  }

  lemma {:induction false} CanonicalIsStringify(leq: (Text, Text) -> bool, v: Value)
    ensures Canonical(leq, v) == Stringify(Ordered(leq, v))
    decreases v
  {
    match v
    case Arr(items) => CanonicalItemsIsStringify(leq, items);
    case Obj(members) =>
      SortKeepsMembers(leq, members);
      SortThenOrder(leq, members);
      CanonicalMembersIsStringify(leq, SortBy(ByKey(leq), members), v);
    case _ =>
  }

  lemma {:induction false} CanonicalItemsIsStringify(leq: (Text, Text) -> bool, items: seq<Value>)
    ensures CanonicalItems(leq, items) == StringifyItems(OrderedItems(leq, items))
    decreases items
  {
    if items != [] {
      CanonicalIsStringify(leq, items[0]);
      CanonicalItemsIsStringify(leq, items[1..]);
      assert OrderedItems(leq, items)[1..] == OrderedItems(leq, items[1..]);
    }
  }

  lemma {:induction false} CanonicalMembersIsStringify(
      leq: (Text, Text) -> bool, sorted: seq<Member>, owner: Value)
    requires owner.Obj? && forall m :: m in sorted ==> m in owner.members
    ensures CanonicalMembers(leq, sorted, owner) == StringifyMembers(OrderedMembers(leq, sorted))
    decreases owner, |sorted|
  {
    if sorted != [] {
      assert sorted[0] in owner.members && sorted[0].value < sorted[0];
      CanonicalIsStringify(leq, sorted[0].value);
      CanonicalMembersIsStringify(leq, sorted[1..], owner);
      assert OrderedMembers(leq, sorted)[1..] == OrderedMembers(leq, sorted[1..]);
    }
  }

  lemma {:induction false} FindMemberUnique(members: seq<Member>, m: Member)
    requires UniqueKeys(members) && m in members
    ensures FindMember(members, m.key) == m
  {
    if members[0].key != m.key {
      assert m in members[1..];
      FindMemberUnique(members[1..], m);
    } else {
      var i :| 0 <= i < |members| && members[i] == m;
      assert i == 0;
    }
  }

  lemma {:induction false} StableJsonIsStringify(v: Value)
    requires WellKeyed(v)
    ensures StableJson(v) == Stringify(Ordered(CodeUnitLeq, v))
    decreases v
  {
    match v
    case Arr(items) => StableItemsIsStringify(items);
    case Obj(members) =>
      var sorted := SortBy(ByKey(CodeUnitLeq), members);
      SortKeepsMembers(CodeUnitLeq, members);
      SortThenOrder(CodeUnitLeq, members);
      SortMap(KeyOf, ByKey(CodeUnitLeq), CodeUnitLeq, members);
      assert SortedKeys(members) == Map(KeyOf, sorted);
      StableMembersIsStringify(sorted, v);
    case _ =>
  }

  lemma {:induction false} StableItemsIsStringify(items: seq<Value>)
    requires forall item :: item in items ==> WellKeyed(item)
    ensures StableItems(items) == StringifyItems(OrderedItems(CodeUnitLeq, items))
    decreases items
  {
    if items != [] {
      StableJsonIsStringify(items[0]);
      StableItemsIsStringify(items[1..]);
      assert OrderedItems(CodeUnitLeq, items)[1..] == OrderedItems(CodeUnitLeq, items[1..]);
    }
  }

  lemma {:induction false} StableMembersIsStringify(sorted: seq<Member>, owner: Value)
    requires owner.Obj? && WellKeyed(owner)
    requires forall m :: m in sorted ==> m in owner.members
    requires forall k :: k in Map(KeyOf, sorted) ==> HasKey(owner.members, k)
    ensures StableMembers(Map(KeyOf, sorted), owner) == StringifyMembers(OrderedMembers(CodeUnitLeq, sorted))
    decreases owner, |sorted|
  {
    if sorted != [] {
      var m := sorted[0];
      assert m in owner.members && m.value < m;
      FindMemberUnique(owner.members, m);
      StableJsonIsStringify(m.value);
      assert Map(KeyOf, sorted)[1..] == Map(KeyOf, sorted[1..]);
      StableMembersIsStringify(sorted[1..], owner);
      assert OrderedMembers(CodeUnitLeq, sorted)[1..] == OrderedMembers(CodeUnitLeq, sorted[1..]);
    }
  }

  // ------------------------------------------- sorting keeps the meaning of v

  /** With distinct keys, Fields holds exactly the members. */
  lemma {:induction false} FieldsOf(members: seq<Member>)
    requires UniqueKeys(members)
    ensures forall k :: k in Fields(members) <==> HasKey(members, k)
    ensures forall m :: m in members ==> m.key in Fields(members) && Fields(members)[m.key] == Meaning(m.value)
  {
    if members != [] {
      var first, rest := members[0], members[1..];
      FieldsOf(rest);
      assert forall m :: m in members <==> m == first || m in rest;
      forall m | m in rest ensures m.key != first.key {
        var i :| 0 <= i < |rest| && rest[i] == m;
        assert members[i + 1] == m;
      }
      forall k ensures k in Fields(members) <==> HasKey(members, k) {
        assert HasKey(members, k) <==> k == first.key || HasKey(rest, k);
      }
    }
  }

  /** The same members in any order are the same fields. */
  lemma FieldsOfPermutation(a: seq<Member>, b: seq<Member>)
    requires UniqueKeys(a) && UniqueKeys(b)
    requires forall m :: m in a <==> m in b
    ensures Fields(a) == Fields(b)
  {
    FieldsOf(a);
    FieldsOf(b);
  }

  lemma UniqueKeysPermutation(a: seq<Member>, b: seq<Member>)
    requires UniqueKeys(a) && multiset(a) == multiset(b)
    ensures UniqueKeys(b)
  {
    forall i, j | 0 <= i < j < |b| ensures b[i].key != b[j].key {
      if b[i].key == b[j].key {
        InMultiset(b, b[i]);
        InMultiset(a, b[i]);
        InMultiset(b, b[j]);
        InMultiset(a, b[j]);
        assert b[i] == b[j];
        TwiceInMultiset(b, i, j);
        OnceInMultiset(a, b[i]);
      }
    }
  }

  lemma {:induction false} OrderedMeaning(leq: (Text, Text) -> bool, v: Value)
    requires WellKeyed(v)
    ensures Meaning(Ordered(leq, v)) == Meaning(v)
    decreases v
  {
    match v
    case Arr(items) =>
      forall i | 0 <= i < |items| ensures Meaning(Ordered(leq, items[i])) == Meaning(items[i]) {
        OrderedMeaning(leq, items[i]);
      }
      assert Meanings(OrderedItems(leq, items)) == Meanings(items);
    case Obj(members) =>
      var ordered := OrderedMembers(leq, members);
      OrderedFields(leq, members);
      var sorted := SortBy(ByKey(leq), ordered);
      UniqueKeysPermutation(ordered, sorted);
      SortKeepsMembers(leq, ordered);
      FieldsOfPermutation(sorted, ordered);
    case _ =>
  }

  lemma {:induction false} OrderedWellKeyed(leq: (Text, Text) -> bool, v: Value)
    requires WellKeyed(v)
    ensures WellKeyed(Ordered(leq, v))
    decreases v
  {
    match v
    case Arr(items) =>
      forall i | 0 <= i < |items| ensures WellKeyed(Ordered(leq, items[i])) { OrderedWellKeyed(leq, items[i]); }
    case Obj(members) =>
      var ordered := OrderedMembers(leq, members);
      OrderedMembersUnique(leq, members);
      UniqueKeysPermutation(ordered, SortBy(ByKey(leq), ordered));
      SortKeepsMembers(leq, ordered);
      forall i | 0 <= i < |members| ensures WellKeyed(ordered[i].value) {
        assert members[i] in members && members[i].value < members[i];
        OrderedWellKeyed(leq, members[i].value);
      }
    case _ =>
  }

  lemma {:induction false} OrderedFields(leq: (Text, Text) -> bool, members: seq<Member>)
    requires UniqueKeys(members) && forall m :: m in members ==> WellKeyed(m.value)
    ensures UniqueKeys(OrderedMembers(leq, members))
    ensures Fields(OrderedMembers(leq, members)) == Fields(members)
    decreases members
  {
    if members != [] {
      assert members[0].value < members[0];
      OrderedMeaning(leq, members[0].value);
      OrderedFields(leq, members[1..]);
      assert OrderedMembers(leq, members)[1..] == OrderedMembers(leq, members[1..]);
    }
  }

  // ------------------------------------ equal meanings are ordered identically

  lemma {:induction false} EqualMeaningOrdered(leq: (Text, Text) -> bool, a: Value, b: Value)
    requires TotalOrder(leq) && WellKeyed(a) && WellKeyed(b)
    requires Meaning(a) == Meaning(b)
    ensures Ordered(leq, a) == Ordered(leq, b)
    decreases a
  {
    match a
    case Arr(items) =>
      forall i | 0 <= i < |items| ensures Ordered(leq, items[i]) == Ordered(leq, b.items[i]) {
        assert Meanings(items)[i] == Meanings(b.items)[i];
        EqualMeaningOrdered(leq, items[i], b.items[i]);
      }
      assert |Meanings(items)| == |Meanings(b.items)|;
      assert OrderedItems(leq, items) == OrderedItems(leq, b.items);
    case Obj(members) =>
      forall m, m' | m in members && m' in b.members && m.key == m'.key
        ensures OrderedMember(leq, m) == OrderedMember(leq, m')
      {
        FieldsOf(members);
        FieldsOf(b.members);
        assert m.value < m;
        EqualMeaningOrdered(leq, m.value, m'.value);
      }
      EqualFieldsOrdered(leq, members, b.members);
    case _ =>
  }

  lemma EqualFieldsOrdered(leq: (Text, Text) -> bool, a: seq<Member>, b: seq<Member>)
    requires TotalOrder(leq) && UniqueKeys(a) && UniqueKeys(b) && Fields(a) == Fields(b)
    requires forall m, m' :: m in a && m' in b && m.key == m'.key ==> OrderedMember(leq, m) == OrderedMember(leq, m')
    ensures SortBy(ByKey(leq), OrderedMembers(leq, a)) == SortBy(ByKey(leq), OrderedMembers(leq, b))
  {
    var x, y := OrderedMembers(leq, a), OrderedMembers(leq, b);
    OrderedMembersIncluded(leq, a, b);
    OrderedMembersIncluded(leq, b, a);
    OrderedMembersUnique(leq, a);
    OrderedMembersUnique(leq, b);
    SameElementsSameMultiset(x, y);
    SortUniqueKeys(leq, x, y);
  }

  lemma OrderedMembersUnique(leq: (Text, Text) -> bool, a: seq<Member>)
    requires UniqueKeys(a)
    ensures UniqueKeys(OrderedMembers(leq, a))
  {
    forall i, j | 0 <= i < j < |a| ensures OrderedMembers(leq, a)[i].key != OrderedMembers(leq, a)[j].key {
      assert a[i].key != a[j].key;
    }
  }

  lemma OrderedMembersIncluded(leq: (Text, Text) -> bool, a: seq<Member>, b: seq<Member>)
    requires UniqueKeys(a) && UniqueKeys(b) && Fields(a) == Fields(b)
    requires forall m, m' :: m in a && m' in b && m.key == m'.key ==> OrderedMember(leq, m) == OrderedMember(leq, m')
    ensures forall m :: m in OrderedMembers(leq, a) ==> m in OrderedMembers(leq, b)
  {
    FieldsOf(a);
    FieldsOf(b);
    forall m | m in OrderedMembers(leq, a) ensures m in OrderedMembers(leq, b) {
      var i :| 0 <= i < |a| && OrderedMember(leq, a[i]) == m;
      assert a[i] in a && HasKey(b, a[i].key);
      var m' :| m' in b && m'.key == a[i].key;
      var j :| 0 <= j < |b| && b[j] == m';
      assert OrderedMembers(leq, b)[j] == OrderedMember(leq, m') == m;
    }
  }

  lemma ByKeyPreorder(leq: (Text, Text) -> bool)
    requires TotalPreorder(leq)
    ensures TotalPreorder(ByKey(leq))
  {
    var byKey := ByKey(leq);
    forall a, b, c | byKey(a, b) && byKey(b, c) ensures byKey(a, c) {
      assert leq(a.key, b.key) && leq(b.key, c.key);
    }
    forall a, b ensures byKey(a, b) || byKey(b, a) {
      assert leq(a.key, b.key) || leq(b.key, a.key);
    }
  }

  lemma SortUniqueKeys(leq: (Text, Text) -> bool, a: seq<Member>, b: seq<Member>)
    requires TotalOrder(leq) && UniqueKeys(a) && multiset(a) == multiset(b)
    ensures SortBy(ByKey(leq), a) == SortBy(ByKey(leq), b)
  {
    var x, y := SortBy(ByKey(leq), a), SortBy(ByKey(leq), b);
    ByKeyPreorder(leq);
    SortBySorted(ByKey(leq), a);
    SortBySorted(ByKey(leq), b);
    UniqueKeysPermutation(a, x);
    SortedUnique(ByKey(leq), x, y);
  }

  // --------------------------------------------------------------- the results

  /**
   Whatever the comparison, the printed text determines the meaning: the reader
   recovers a value that means the same.
   */
  lemma CanonicalReadsBack(leq: (Text, Text) -> bool, v: Value)
    requires WellKeyed(v)
    ensures Parse(Canonical(leq, v)) == Some(Ordered(leq, v))
    ensures Meaning(Ordered(leq, v)) == Meaning(v)
  {
    CanonicalIsStringify(leq, v);
    OrderedWellKeyed(leq, v);
    ParseStringify(Ordered(leq, v));
    OrderedMeaning(leq, v);
  }

  /** Equal text implies equal meaning, even for a comparison that is no order at all. */
  lemma CanonicalDetermines(leq: (Text, Text) -> bool, a: Value, b: Value)
    requires WellKeyed(a) && WellKeyed(b)
    requires Canonical(leq, a) == Canonical(leq, b)
    ensures Meaning(a) == Meaning(b)
  {
    CanonicalReadsBack(leq, a);
    CanonicalReadsBack(leq, b);
  }

  /** Under a total order of keys, texts are equal exactly when the meanings are. */
  lemma CanonicalDecides(leq: (Text, Text) -> bool, a: Value, b: Value)
    requires TotalOrder(leq) && WellKeyed(a) && WellKeyed(b)
    ensures Canonical(leq, a) == Canonical(leq, b) <==> Meaning(a) == Meaning(b)
  {
    if Meaning(a) == Meaning(b) {
      EqualMeaningOrdered(leq, a, b);
      CanonicalIsStringify(leq, a);
      CanonicalIsStringify(leq, b);
    } else if Canonical(leq, a) == Canonical(leq, b) {
      CanonicalDetermines(leq, a, b);
    }
  }

  lemma CodeUnitOrder()
    ensures TotalOrder(CodeUnitLeq)
  {
    forall a, b ensures CodeUnitLeq(a, b) || CodeUnitLeq(b, a) { CodeUnitLeqTotal(a, b); }
    forall a, b | CodeUnitLeq(a, b) && CodeUnitLeq(b, a) ensures a == b { CodeUnitLeqAntisymmetric(a, b); }
    forall a, b, c | CodeUnitLeq(a, b) && CodeUnitLeq(b, c) ensures CodeUnitLeq(a, c) {
      CodeUnitLeqTransitive(a, b, c);
    }
  }

  /** stableJson agrees on two values exactly when they are equal as finite trees. */
  lemma StableJsonDecides(a: Value, b: Value)
    requires WellKeyed(a) && WellKeyed(b)
    ensures StableJson(a) == StableJson(b) <==> Meaning(a) == Meaning(b)
  {
    CodeUnitOrder();
    CanonicalDecides(CodeUnitLeq, a, b);
    CanonicalIsStringify(CodeUnitLeq, a);
    CanonicalIsStringify(CodeUnitLeq, b);
    StableJsonIsStringify(a);
    StableJsonIsStringify(b);
  }

  /** What stableJson prints reads back, and holds neither a NUL nor a lone surrogate. */
  lemma StableJsonReadsBack(v: Value)
    requires WellKeyed(v)
    ensures Parse(StableJson(v)).Some? && Meaning(Parse(StableJson(v)).value) == Meaning(v)
    ensures Printable(StableJson(v)) && WellFormed(StableJson(v))
  {
    StableJsonIsStringify(v);
    OrderedWellKeyed(CodeUnitLeq, v);
    ParseStringify(Ordered(CodeUnitLeq, v));
    StringifySafe(Ordered(CodeUnitLeq, v));
    OrderedMeaning(CodeUnitLeq, v);
  }

  // --------------------------------------------------------- in which order

  /** The keys of every object in the value strictly increase, unit by unit. */
  ghost predicate KeysIncrease(v: Value) {
    match v
    case Arr(items) => forall item :: item in items ==> KeysIncrease(item)
    case Obj(members) =>
      MembersIncrease(members) && (forall m :: m in members ==> KeysIncrease(m.value))
    case _ => true
  }

  ghost predicate MembersIncrease(members: seq<Member>) {
    forall i, j :: 0 <= i < j < |members| ==> Precedes(members[i].key, members[j].key)
  }

  lemma SortedKeysIncrease(members: seq<Member>)
    requires UniqueKeys(members)
    ensures MembersIncrease(SortBy(ByKey(CodeUnitLeq), members))
  {
    var byKey, sorted := ByKey(CodeUnitLeq), SortBy(ByKey(CodeUnitLeq), members);
    CodeUnitOrder();
    ByKeyPreorder(CodeUnitLeq);
    SortBySorted(byKey, members);
    UniqueKeysPermutation(members, sorted);
    forall i, j | 0 <= i < j < |sorted| ensures Precedes(sorted[i].key, sorted[j].key) {
      assert byKey(sorted[i], sorted[j]);
      CodeUnitLeqIs(sorted[i].key, sorted[j].key);
    }
  }

  lemma {:induction false} OrderedIncreases(v: Value)
    requires WellKeyed(v)
    ensures KeysIncrease(Ordered(CodeUnitLeq, v))
    decreases v
  {
    match v
    case Arr(items) =>
      forall i | 0 <= i < |items| ensures KeysIncrease(Ordered(CodeUnitLeq, items[i])) { OrderedIncreases(items[i]); }
    case Obj(members) =>
      var ordered := OrderedMembers(CodeUnitLeq, members);
      OrderedMembersUnique(CodeUnitLeq, members);
      SortedKeysIncrease(ordered);
      forall i | 0 <= i < |members| ensures KeysIncrease(ordered[i].value) {
        assert members[i] in members && members[i].value < members[i];
        OrderedIncreases(members[i].value);
      }
      SortedValuesIncrease(ordered);
    case _ =>
  }

  lemma SortedValuesIncrease(members: seq<Member>)
    requires forall i :: 0 <= i < |members| ==> KeysIncrease(members[i].value)
    ensures forall m :: m in SortBy(ByKey(CodeUnitLeq), members) ==> KeysIncrease(m.value)
  {
    SortKeepsMembers(CodeUnitLeq, members);
    forall m | m in SortBy(ByKey(CodeUnitLeq), members) ensures KeysIncrease(m.value) {
      assert m in members;
    }
  }

  /** What stableJson prints: compactly, the value of the same meaning whose keys increase throughout. */
  lemma StableJsonIncreases(v: Value) returns (sorted: Value)
    requires WellKeyed(v)
    ensures StableJson(v) == Stringify(sorted) && Parse(StableJson(v)) == Some(sorted)
    ensures KeysIncrease(sorted) && Meaning(sorted) == Meaning(v)
  {
    sorted := Ordered(CodeUnitLeq, v);
    StableJsonIsStringify(v);
    OrderedIncreases(v);
    OrderedWellKeyed(CodeUnitLeq, v);
    ParseStringify(sorted);
    OrderedMeaning(CodeUnitLeq, v);
  }
}
