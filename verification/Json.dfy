/**
 JSON trees, the compact text that JSON.stringify prints for them (RFC 8259 with
 the string escaping of its section 7, lone surrogates written as \uXXXX), and the
 reader JSON.parse. Numbers are integers.
 */
module Json {
  import opened Utf16
  import opened Wrappers
  import opened Joining

  /** A JavaScript value made of JSON data; members keep their insertion order. */
  datatype Value =
    | Null
    | Bool(flag: bool)
    | Num(number: int)
    | Str(text: Text)
    | Arr(items: seq<Value>)
    | Obj(members: seq<Member>)

  datatype Member = Member(key: Text, value: Value)

  const QUOTE: CodeUnit := 0x22
  const COMMA: CodeUnit := 0x2C
  const MINUS: CodeUnit := 0x2D
  const ZERO: CodeUnit := 0x30
  const NINE: CodeUnit := 0x39
  const COLON: CodeUnit := 0x3A
  const LBRACKET: CodeUnit := 0x5B
  const BACKSLASH: CodeUnit := 0x5C
  const RBRACKET: CodeUnit := 0x5D
  const LOWER_U: CodeUnit := 0x75
  const LBRACE: CodeUnit := 0x7B
  const RBRACE: CodeUnit := 0x7D
  const NULL: Text := [0x6E, 0x75, 0x6C, 0x6C]
  const TRUE: Text := [0x74, 0x72, 0x75, 0x65]
  const FALSE: Text := [0x66, 0x61, 0x6C, 0x73, 0x65]

  // ---------------------------------------------------------------- printing

  function HexDigit(d: int): CodeUnit
    requires 0 <= d < 16
  {
    if d < 10 then 0x30 + d else 0x57 + d
  }

  function UnicodeEscape(c: CodeUnit): Text {
    [BACKSLASH, LOWER_U, HexDigit(c / 0x1000), HexDigit(c / 0x100 % 16), HexDigit(c / 0x10 % 16), HexDigit(c % 16)]
  }

  /** The letter of a two-character escape, or 0 when the unit has none. */
  function ShortEscape(c: CodeUnit): CodeUnit {
    match c
    case 0x08 => 0x62
    case 0x09 => 0x74
    case 0x0A => 0x6E
    case 0x0C => 0x66
    case 0x0D => 0x72
    case 0x22 => 0x22
    case 0x5C => 0x5C
    case _ => 0
  }

  function EscapeUnit(c: CodeUnit): Text {
    if ShortEscape(c) != 0 then [BACKSLASH, ShortEscape(c)]
    else if c < 0x20 || IsSurrogate(c) then UnicodeEscape(c)
    else [c]
  }

  /** Surrogate pairs are printed raw; every other unit on its own. */
  function Escape(s: Text): Text {
    if s == [] then []
    else if StartsWithPair(s) then s[..2] + Escape(s[2..])
    else EscapeUnit(s[0]) + Escape(s[1..])
  }

  function Quote(s: Text): Text {
    [QUOTE] + Escape(s) + [QUOTE]
  }

  function Decimal(n: nat): Text {
    if n < 10 then [ZERO + n] else Decimal(n / 10) + [ZERO + n % 10]
  }

  function Number(n: int): Text {
    if n < 0 then [MINUS] + Decimal(-n) else Decimal(n)
  }

  /** JSON.stringify(v). */
  function Stringify(v: Value): Text {
    match v
    case Null => NULL
    case Bool(flag) => if flag then TRUE else FALSE
    case Num(n) => Number(n)
    case Str(s) => Quote(s)
    case Arr(items) => [LBRACKET] + StringifyItems(items) + [RBRACKET]
    case Obj(members) => [LBRACE] + StringifyMembers(members) + [RBRACE]
  }

  function StringifyItems(items: seq<Value>): Text {
    if items == [] then []
    else if |items| == 1 then Stringify(items[0])
    else Stringify(items[0]) + [COMMA] + StringifyItems(items[1..])
  }

  function StringifyMembers(members: seq<Member>): Text {
    if members == [] then []
    else if |members| == 1 then StringifyMember(members[0])
    else StringifyMember(members[0]) + [COMMA] + StringifyMembers(members[1..])
  }

  function StringifyMember(m: Member): Text {
    Quote(m.key) + [COLON] + Stringify(m.value)
  }

  // --------------------------------------------- what section 7 of RFC 8259 says

  predicate IsLowerHex(c: CodeUnit) { 0x30 <= c <= 0x39 || 0x61 <= c <= 0x66 }

  /** The number that a lower-case hexadecimal digit stands for. */
  function Nibble(c: CodeUnit): int
    requires IsLowerHex(c)
  {
    if c < 0x61 then c - 0x30 else c - 0x61 + 10
  }

  /** `\u` and the four lower-case digits of c. */
  predicate IsUnicodeEscape(t: Text, c: CodeUnit) {
    && |t| == 6 && t[..2] == Ascii("\\u")
    && (forall i :: 2 <= i < 6 ==> IsLowerHex(t[i]))
    && ((Nibble(t[2]) * 16 + Nibble(t[3])) * 16 + Nibble(t[4])) * 16 + Nibble(t[5]) == c
  }

  const SHORT_ESCAPED: set<CodeUnit> := {0x08, 0x09, 0x0A, 0x0C, 0x0D, 0x22, 0x5C}

  /** Seven units have an escape of two characters. */
  lemma ShortEscapesAre()
    ensures EscapeUnit(0x08) == Ascii("\\b") && EscapeUnit(0x09) == Ascii("\\t") && EscapeUnit(0x0A) == Ascii("\\n")
    ensures EscapeUnit(0x0C) == Ascii("\\f") && EscapeUnit(0x0D) == Ascii("\\r")
    ensures EscapeUnit(0x22) == Ascii("\\\"") && EscapeUnit(0x5C) == Ascii("\\\\")
  {
  }

  /** Other control characters and lone surrogates are spelt out, and every other unit stands for itself. */
  lemma OtherEscapesAre(c: CodeUnit)
    requires c !in SHORT_ESCAPED
    ensures if c < 0x20 || IsSurrogate(c) then IsUnicodeEscape(EscapeUnit(c), c) else EscapeUnit(c) == [c]
  {
    if c < 0x20 || IsSurrogate(c) {
      EscapeIsHex(c);
    }
  }

  lemma EscapeIsHex(c: CodeUnit)
    ensures IsUnicodeEscape(UnicodeEscape(c), c)
  {
    var t := UnicodeEscape(c);
    HexRoundTrip(c);
    assert Ascii("\\u") == [BACKSLASH, LOWER_U];
    NibbleOfDigit(c / 0x1000);
    NibbleOfDigit(c / 0x100 % 16);
    NibbleOfDigit(c / 0x10 % 16);
    NibbleOfDigit(c % 16);
    HexSum(c, Nibble(t[2]), Nibble(t[3]), Nibble(t[4]), Nibble(t[5]));
  }

  lemma NibbleOfDigit(d: int)
    requires 0 <= d < 16
    ensures IsLowerHex(HexDigit(d)) && Nibble(HexDigit(d)) == d
  {
  }

  lemma HexSum(c: int, a: int, b: int, d: int, e: int)
    requires c == a * 0x1000 + b * 0x100 + d * 0x10 + e
    ensures ((a * 16 + b) * 16 + d) * 16 + e == c
  {
  }

  /** A quoted string is its units, escaped one by one, except that a surrogate pair stands for itself. */
  lemma {:induction false} EscapeConcat(s: Text, t: Text)
    requires s == [] || t == [] || !StartsWithPair([s[|s| - 1], t[0]])
    ensures Escape(s + t) == Escape(s) + Escape(t)
    decreases |s|
  {
    if s == [] {
      assert s + t == t;
    } else if t == [] {
      assert s + t == s;
    } else if StartsWithPair(s) {
      assert (s + t)[2..] == s[2..] + t && (s + t)[..2] == s[..2];
      EscapeConcat(s[2..], t);
      Assoc(s[..2], Escape(s[2..]), Escape(t));
    } else {
      var tail := s[1..];
      assert (s + t)[1..] == tail + t && !StartsWithPair(s + t);
      assert tail != [] ==> tail[|tail| - 1] == s[|s| - 1];
      EscapeConcat(tail, t);
      Assoc(EscapeUnit(s[0]), Escape(tail), Escape(t));
    }
  }

  /** The value of a text of decimal digits. */
  function DigitsValue(t: Text): int {
    if t == [] then 0
    else
      var last: int := t[|t| - 1];
      DigitsValue(t[..|t| - 1]) * 10 + (last - 0x30)
  }

  lemma {:induction false} DecimalIs(n: nat)
    ensures Decimal(n) != [] && forall i :: 0 <= i < |Decimal(n)| ==> 0x30 <= Decimal(n)[i] <= 0x39
    ensures DigitsValue(Decimal(n)) == n
    ensures n > 0 ==> Decimal(n)[0] != 0x30
  {
    if n >= 10 {
      DecimalIs(n / 10);
      assert Decimal(n)[..|Decimal(n)| - 1] == Decimal(n / 10);
    } else {
      assert Decimal(n)[..0] == [];
    }
  }

  /** Integers are printed in decimal: a minus sign exactly for negative ones, and no leading zero. */
  lemma NumbersAre(n: int)
    ensures Stringify(Num(0)) == Ascii("0")
    ensures n > 0 ==>
      var t := Stringify(Num(n));
      && t != [] && t[0] != 0x30 && (forall i :: 0 <= i < |t| ==> 0x30 <= t[i] <= 0x39) && DigitsValue(t) == n
    ensures n < 0 ==> Stringify(Num(n)) == Ascii("-") + Stringify(Num(-n))
  {
    if n > 0 {
      DecimalIs(n);
    }
    assert Ascii("0") == [0x30] && Ascii("-") == [MINUS];
  }

  function Printed(items: seq<Value>): (texts: seq<Text>)
    ensures |texts| == |items| && forall i :: 0 <= i < |items| ==> texts[i] == Stringify(items[i])
  {
    if items == [] then [] else [Stringify(items[0])] + Printed(items[1..])
  }

  function PrintedMembers(members: seq<Member>): (texts: seq<Text>)
    ensures |texts| == |members|
    ensures forall i :: 0 <= i < |members| ==>
      texts[i] == Ascii("\"") + Escape(members[i].key) + Ascii("\":") + Stringify(members[i].value)
  {
    if members == [] then []
    else
      var m := members[0];
      [Ascii("\"") + Escape(m.key) + Ascii("\":") + Stringify(m.value)] + PrintedMembers(members[1..])
  }

  lemma WordsAre()
    ensures Stringify(Null) == Ascii("null") && Stringify(Bool(true)) == Ascii("true")
    ensures Stringify(Bool(false)) == Ascii("false")
  {
  }

  /** Compact printing: commas between the parts, a colon after each quoted key, and no white space. */
  lemma PrintsCompactly(items: seq<Value>, members: seq<Member>)
    ensures Stringify(Arr(items)) == Ascii("[") + Join(Printed(items), COMMA) + Ascii("]")
    ensures Stringify(Obj(members)) == Ascii("{") + Join(PrintedMembers(members), COMMA) + Ascii("}")
    ensures Ascii(",") == [COMMA]
  {
    ItemsJoined(items);
    MembersJoined(members);
    assert Ascii("[") == [LBRACKET] && Ascii("]") == [RBRACKET] && Ascii("{") == [LBRACE] && Ascii("}") == [RBRACE];
  }

  lemma {:induction false} ItemsJoined(items: seq<Value>)
    ensures StringifyItems(items) == Join(Printed(items), COMMA)
  {
    if |items| > 1 {
      ItemsJoined(items[1..]);
      assert Printed(items)[1..] == Printed(items[1..]);
      assert StringifyItems(items) == Stringify(items[0]) + ([COMMA] + StringifyItems(items[1..]));
    }
  }

  lemma MemberText(m: Member)
    ensures StringifyMember(m) == Ascii("\"") + Escape(m.key) + Ascii("\":") + Stringify(m.value)
  {
    assert Ascii("\"") == [QUOTE] && Ascii("\":") == [QUOTE] + [COLON];
    var open: Text := [QUOTE];
    assert open + Escape(m.key) + (open + [COLON]) == open + Escape(m.key) + open + [COLON];
  }

  lemma {:induction false} MembersJoined(members: seq<Member>)
    ensures StringifyMembers(members) == Join(PrintedMembers(members), COMMA)
  {
    if members != [] {
      MemberText(members[0]);
    }
    if |members| > 1 {
      MembersJoined(members[1..]);
      assert PrintedMembers(members)[1..] == PrintedMembers(members[1..]);
      assert StringifyMembers(members) == StringifyMember(members[0]) + ([COMMA] + StringifyMembers(members[1..]));
    }
  }

  // ----------------------------------------------------------------- reading

  datatype Read<+T> = Fail | Done(value: T, rest: Text)

  predicate IsSpace(c: CodeUnit) { c == 0x20 || c == 0x09 || c == 0x0A || c == 0x0D }

  predicate IsDigit(c: CodeUnit) { ZERO <= c <= NINE }

  function SkipSpace(t: Text): (r: Text)
    ensures |r| <= |t|
  {
    if t != [] && IsSpace(t[0]) then SkipSpace(t[1..]) else t
  }

  /** The value of a hexadecimal digit in either case, or -1. */
  function HexValue(c: CodeUnit): int {
    if IsDigit(c) then c - 0x30
    else if 0x61 <= c <= 0x66 then c - 0x57
    else if 0x41 <= c <= 0x46 then c - 0x37
    else -1
  }

  /** The unit named by the letter of a two-character escape, or 0. */
  function ShortUnescape(c: CodeUnit): CodeUnit {
    match c
    case 0x22 => 0x22
    case 0x2F => 0x2F
    case 0x5C => 0x5C
    case 0x62 => 0x08
    case 0x66 => 0x0C
    case 0x6E => 0x0A
    case 0x72 => 0x0D
    case 0x74 => 0x09
    case _ => 0
  }

  function ReadUnicodeEscape(t: Text): (r: Read<CodeUnit>)
    ensures r.Done? ==> |r.rest| < |t|
  {
    if |t| < 6 then Fail
    else
      var a, b, c, d := HexValue(t[2]), HexValue(t[3]), HexValue(t[4]), HexValue(t[5]);
      if a < 0 || b < 0 || c < 0 || d < 0 then Fail
      else Done(a * 0x1000 + b * 0x100 + c * 0x10 + d, t[6..])
  }

  /** One unit of a string body; not called at the closing quote. */
  function ReadUnit(t: Text): (r: Read<CodeUnit>)
    ensures r.Done? ==> |r.rest| < |t|
  {
    if t == [] || t[0] < 0x20 then Fail
    else if t[0] != BACKSLASH then Done(t[0], t[1..])
    else if |t| < 2 then Fail
    else if t[1] == LOWER_U then ReadUnicodeEscape(t)
    else if ShortUnescape(t[1]) != 0 then Done(ShortUnescape(t[1]), t[2..])
    else Fail
  }

  predicate IsHex(c: CodeUnit) { IsLowerHex(c) || 0x41 <= c <= 0x46 }

  /** A hexadecimal digit in lower case. */
  function LowerHex(c: CodeUnit): CodeUnit
    requires IsHex(c)
    ensures IsLowerHex(LowerHex(c))
  {
    if c < 0x60 && c > 0x40 then c + 0x20 else c
  }

  /** A plain unit of a string body: no control character, and not the start of an escape. */
  lemma PlainUnitReads(t: Text)
    requires t != [] && t[0] != BACKSLASH
    ensures ReadUnit(t) == if t[0] < 0x20 then Fail else Done(t[0], t[1..])
  {
  }

  /** The eight escapes of two characters, and no other letter but u. */
  lemma ShortEscapeReads(c: CodeUnit, k: Text)
    requires c != 0x75
    ensures
      var named := map[0x22 := 0x22, 0x5C := 0x5C, 0x2F := 0x2F, 0x62 := 0x08, 0x66 := 0x0C, 0x6E := 0x0A, 0x72 := 0x0D, 0x74 := 0x09];
      ReadUnit([0x5C, c] + k) == if c in named then Done(named[c], k) else Fail
  {
    assert ([BACKSLASH, c] + k)[2..] == k;
  }

  /** Four hexadecimal digits, in either case, name the unit of their value. */
  lemma UnicodeEscapeReads(a: CodeUnit, b: CodeUnit, c: CodeUnit, d: CodeUnit, k: Text)
    ensures
      ReadUnit([0x5C, 0x75, a, b, c, d] + k) ==
      if IsHex(a) && IsHex(b) && IsHex(c) && IsHex(d)
      then Done(((Nibble(LowerHex(a)) * 16 + Nibble(LowerHex(b))) * 16 + Nibble(LowerHex(c))) * 16 + Nibble(LowerHex(d)), k)
      else Fail
  {
    var t := [BACKSLASH, LOWER_U, a, b, c, d] + k;
    assert t[6..] == k;
    HexValueIs(a);
    HexValueIs(b);
    HexValueIs(c);
    HexValueIs(d);
  }

  lemma HexValueIs(c: CodeUnit)
    ensures HexValue(c) == if IsHex(c) then Nibble(LowerHex(c)) else -1
  {
  }

  /** A string body and its closing quote. */
  function ReadString(t: Text): (r: Read<Text>)
    ensures r.Done? ==> |r.rest| < |t|
    decreases |t|
  {
    if t != [] && t[0] == QUOTE then Done([], t[1..])
    else
      match ReadUnit(t)
      case Fail => Fail
      case Done(unit, rest) =>
        match ReadString(rest)
        case Fail => Fail
        case Done(tail, rest') => Done([unit] + tail, rest')
  }

  function ReadDigits(acc: nat, t: Text): (r: (nat, Text))
    ensures |r.1| <= |t|
    decreases |t|
  {
    if t != [] && IsDigit(t[0]) then ReadDigits(acc * 10 + (t[0] - ZERO), t[1..]) else (acc, t)
  }

  function ReadNumber(t: Text): (r: Read<int>)
    ensures r.Done? ==> |r.rest| < |t|
  {
    if t == [] then Fail
    else if t[0] == MINUS then
      (match ReadNatural(t[1..])
       case Fail => Fail
       case Done(n, rest) => Done(-n, rest))
    else ReadNatural(t)
  }

  function ReadNatural(t: Text): (r: Read<int>)
    ensures r.Done? ==> |r.rest| < |t|
  {
    if t == [] || !IsDigit(t[0]) then Fail
    else if t[0] == ZERO then Done(0, t[1..])
    else
      var (n, rest) := ReadDigits(t[0] - ZERO, t[1..]);
      Done(n, rest)
  }

  function ReadValue(t: Text): (r: Read<Value>)
    ensures r.Done? ==> |r.rest| < |t|
    decreases |t|, 0
  {
    var u := SkipSpace(t);
    if u == [] then Fail
    else if NULL <= u then Done(Null, u[4..])
    else if TRUE <= u then Done(Bool(true), u[4..])
    else if FALSE <= u then Done(Bool(false), u[5..])
    else if u[0] == QUOTE then
      (match ReadString(u[1..])
       case Fail => Fail
       case Done(s, rest) => Done(Str(s), rest))
    else if u[0] == LBRACKET then ReadArray(u[1..])
    else if u[0] == LBRACE then ReadObject(u[1..])
    else
      match ReadNumber(u)
      case Fail => Fail
      case Done(n, rest) => Done(Num(n), rest)
  }

  /** What follows an opening bracket. */
  function ReadArray(t: Text): (r: Read<Value>)
    ensures r.Done? ==> |r.rest| < |t|
    decreases |t|, 2
  {
    var body := SkipSpace(t);
    if body != [] && body[0] == RBRACKET then Done(Arr([]), body[1..])
    else
      match ReadItems(t)
      case Fail => Fail
      case Done(items, rest) => Done(Arr(items), rest)
  }

  /** What follows an opening brace. */
  function ReadObject(t: Text): (r: Read<Value>)
    ensures r.Done? ==> |r.rest| < |t|
    decreases |t|, 3
  {
    var body := SkipSpace(t);
    if body != [] && body[0] == RBRACE then Done(Obj([]), body[1..])
    else
      match ReadMembers(t)
      case Fail => Fail
      case Done(members, rest) => Done(Obj(members), rest)
  }

  /** One or more values separated by commas, and the closing bracket. */
  function ReadItems(t: Text): (r: Read<seq<Value>>)
    ensures r.Done? ==> |r.rest| < |t|
    decreases |t|, 1
  {
    match ReadValue(t)
    case Fail => Fail
    case Done(v, rest) =>
      var u := SkipSpace(rest);
      if u == [] then Fail
      else if u[0] == RBRACKET then Done([v], u[1..])
      else if u[0] != COMMA then Fail
      else
        match ReadItems(u[1..])
        case Fail => Fail
        case Done(items, rest') => Done([v] + items, rest')
  }

  /** A string, a colon and a value. */
  function ReadMember(t: Text): (r: Read<Member>)
    ensures r.Done? ==> |r.rest| < |t|
    decreases |t|, 1
  {
    var u := SkipSpace(t);
    if u == [] || u[0] != QUOTE then Fail
    else
      match ReadString(u[1..])
      case Fail => Fail
      case Done(key, rest) =>
        var w := SkipSpace(rest);
        if w == [] || w[0] != COLON then Fail
        else
          match ReadValue(w[1..])
          case Fail => Fail
          case Done(v, rest') => Done(Member(key, v), rest')
  }

  function ReadMembers(t: Text): (r: Read<seq<Member>>)
    ensures r.Done? ==> |r.rest| < |t|
    decreases |t|, 2
  {
    match ReadMember(t)
    case Fail => Fail
    case Done(m, rest) =>
      var u := SkipSpace(rest);
      if u == [] then Fail
      else if u[0] == RBRACE then Done([m], u[1..])
      else if u[0] != COMMA then Fail
      else
        match ReadMembers(u[1..])
        case Fail => Fail
        case Done(members, rest') => Done([m] + members, rest')
  }

  predicate UniqueKeys(members: seq<Member>) {
    forall i, j :: 0 <= i < j < |members| ==> members[i].key != members[j].key
  }

  /** Every object in the value has distinct keys, as a JavaScript object has. */
  predicate WellKeyed(v: Value) {
    match v
    case Arr(items) => forall item :: item in items ==> WellKeyed(item)
    case Obj(members) => UniqueKeys(members) && forall m :: m in members ==> WellKeyed(m.value)
    case _ => true
  }

  /** `members[key]`; None is undefined. */
  function Lookup(members: seq<Member>, key: Text): Option<Value> {
    if members == [] then None
    else if members[0].key == key then Some(members[0].value)
    else Lookup(members[1..], key)
  }

  /** `object[key] = value`: overwrites in place, or appends. */
  function Assign(members: seq<Member>, key: Text, value: Value): seq<Member> {
    if members == [] then [Member(key, value)]
    else if members[0].key == key then [Member(key, value)] + members[1..]
    else [members[0]] + Assign(members[1..], key, value)
  }

  /** Builds the objects of a document: a repeated key overwrites the earlier member. */
  function Build(v: Value): Value {
    match v
    case Arr(items) => Arr(BuildItems(items))
    case Obj(members) => Obj(BuildMembers(members))
    case _ => v
  }

  function BuildItems(items: seq<Value>): (r: seq<Value>)
    ensures |r| == |items|
    ensures forall i :: 0 <= i < |items| ==> r[i] == Build(items[i])
  {
    if items == [] then [] else [Build(items[0])] + BuildItems(items[1..])
  }

  function BuildMembers(members: seq<Member>): seq<Member> {
    if members == [] then []
    else
      var last := members[|members| - 1];
      Assign(BuildMembers(members[..|members| - 1]), last.key, Build(last.value))
  }

  /** JSON.parse(t): one value with nothing but white space around it; None when it throws. */
  function Parse(t: Text): Option<Value> {
    match ReadValue(t)
    case Fail => None
    case Done(v, rest) => if SkipSpace(rest) == [] then Some(Build(v)) else None
  }

  lemma {:induction false} AssignMembers(members: seq<Member>, key: Text, value: Value)
    ensures forall m :: m in Assign(members, key, value) ==> m in members || m == Member(key, value)
    ensures (forall m :: m in members ==> m.key != key) ==> Assign(members, key, value) == members + [Member(key, value)]
  {
    if members != [] && members[0].key != key {
      AssignMembers(members[1..], key, value);
      assert members == [members[0]] + members[1..];
    }
  }

  lemma {:induction false} AssignUnique(members: seq<Member>, key: Text, value: Value)
    requires UniqueKeys(members)
    ensures UniqueKeys(Assign(members, key, value))
  {
    if members != [] && members[0].key != key {
      AssignUnique(members[1..], key, value);
      AssignMembers(members[1..], key, value);
      var r := Assign(members[1..], key, value);
      forall i | 0 <= i < |r| ensures r[i].key != members[0].key {
        assert r[i] in r;
      }
      PrependUnique(members[0], r);
    }
  }

  lemma PrependUnique(m: Member, rest: seq<Member>)
    requires UniqueKeys(rest) && forall i :: 0 <= i < |rest| ==> rest[i].key != m.key
    ensures UniqueKeys([m] + rest)
  {
    var all := [m] + rest;
    forall i, j | 0 <= i < j < |all| ensures all[i].key != all[j].key {
      assert all[j] == rest[j - 1];
    }
  }

  /** JSON.parse yields objects with distinct keys. */
  lemma {:induction false} BuildWellKeyed(v: Value)
    ensures WellKeyed(Build(v))
    decreases v
  {
    match v
    case Arr(items) =>
      forall i | 0 <= i < |items| ensures WellKeyed(Build(items[i])) { BuildWellKeyed(items[i]); }
    case Obj(members) => BuildMembersWellKeyed(members);
    case _ =>
  }

  lemma {:induction false} BuildMembersWellKeyed(members: seq<Member>)
    ensures WellKeyed(Obj(BuildMembers(members)))
    decreases members
  {
    if members != [] {
      var last := members[|members| - 1];
      assert last in members && last.value < last;
      BuildWellKeyed(last.value);
      BuildMembersWellKeyed(members[..|members| - 1]);
      AssignUnique(BuildMembers(members[..|members| - 1]), last.key, Build(last.value));
      AssignMembers(BuildMembers(members[..|members| - 1]), last.key, Build(last.value));
    }
  }

  lemma {:induction false} LookupWellKeyed(members: seq<Member>, key: Text)
    requires WellKeyed(Obj(members))
    ensures Lookup(members, key).Some? ==> WellKeyed(Lookup(members, key).value)
  {
    if members != [] && members[0].key != key {
      assert forall m :: m in members[1..] ==> m in members;
      LookupWellKeyed(members[1..], key);
    }
  }

  lemma {:induction false} BuildIdentity(v: Value)
    requires WellKeyed(v)
    ensures Build(v) == v
    decreases v
  {
    match v
    case Arr(items) =>
      forall i | 0 <= i < |items| ensures Build(items[i]) == items[i] { BuildIdentity(items[i]); }
    case Obj(members) => BuildMembersIdentity(members);
    case _ =>
  }

  lemma InitWellKeyed(members: seq<Member>)
    requires WellKeyed(Obj(members)) && members != []
    ensures WellKeyed(Obj(members[..|members| - 1]))
    ensures forall m :: m in members[..|members| - 1] ==> m.key != members[|members| - 1].key
  {
    var init := members[..|members| - 1];
    forall m | m in init ensures m in members && m.key != members[|members| - 1].key {
      var i :| 0 <= i < |init| && init[i] == m;
      assert members[i] == m;
    }
  }

  lemma {:induction false} BuildMembersIdentity(members: seq<Member>)
    requires WellKeyed(Obj(members))
    ensures BuildMembers(members) == members
    decreases members
  {
    if members != [] {
      var init, last := members[..|members| - 1], members[|members| - 1];
      assert last in members && last.value < last;
      assert WellKeyed(last.value);
      BuildIdentity(last.value);
      InitWellKeyed(members);
      BuildMembersIdentity(init);
      AssignMembers(init, last.key, last.value);
      assert Assign(init, last.key, last.value) == init + [last];
      assert members == init + [last];
    }
  }

  // ------------------------------------------------------------ reading back

  /** Text followed by k, printed without nested concatenations; see PutIsStringify. */
  function Put(v: Value, k: Text): Text {
    match v
    case Null => NULL + k
    case Bool(flag) => (if flag then TRUE else FALSE) + k
    case Num(n) => Number(n) + k
    case Str(s) => [QUOTE] + PutString(s, k)
    case Arr(items) => [LBRACKET] + PutItems(items, [RBRACKET] + k)
    case Obj(members) => [LBRACE] + PutMembers(members, [RBRACE] + k)
  }

  function PutString(s: Text, k: Text): Text {
    PutUnits(s, [QUOTE] + k)
  }

  function PutUnits(s: Text, k: Text): Text {
    if s == [] then k
    else if StartsWithPair(s) then [s[0]] + ([s[1]] + PutUnits(s[2..], k))
    else EscapeUnit(s[0]) + PutUnits(s[1..], k)
  }

  function PutItems(items: seq<Value>, k: Text): Text {
    if items == [] then k
    else Put(items[0], if |items| == 1 then k else [COMMA] + PutItems(items[1..], k))
  }

  function PutMembers(members: seq<Member>, k: Text): Text {
    if members == [] then k
    else PutMember(members[0], if |members| == 1 then k else [COMMA] + PutMembers(members[1..], k))
  }

  function PutMember(m: Member, k: Text): Text {
    [QUOTE] + PutString(m.key, [COLON] + Put(m.value, k))
  }

  lemma Assoc(a: Text, b: Text, c: Text)
    ensures (a + b) + c == a + (b + c)
  {
  }

  lemma {:induction false} PutUnitsIsEscape(s: Text, k: Text)
    ensures PutUnits(s, k) == Escape(s) + k
  {
    if s == [] {
    } else if StartsWithPair(s) {
      PutUnitsIsEscape(s[2..], k);
      assert s[..2] == [s[0]] + [s[1]];
      Assoc(s[..2], Escape(s[2..]), k);
      Assoc([s[0]], [s[1]], PutUnits(s[2..], k));
    } else {
      PutUnitsIsEscape(s[1..], k);
      Assoc(EscapeUnit(s[0]), Escape(s[1..]), k);
    }
  }

  lemma PutStringIsQuote(s: Text, k: Text)
    ensures [QUOTE] + PutString(s, k) == Quote(s) + k
  {
    PutUnitsIsEscape(s, [QUOTE] + k);
  }

  lemma {:induction false} PutIsStringify(v: Value, k: Text)
    ensures Put(v, k) == Stringify(v) + k
    decreases v
  {
    match v
    case Str(s) => PutStringIsQuote(s, k);
    case Arr(items) => PutItemsIsStringify(items, [RBRACKET] + k);
    case Obj(members) => PutMembersIsStringify(members, [RBRACE] + k);
    case _ =>
  }

  lemma {:induction false} PutItemsIsStringify(items: seq<Value>, k: Text)
    ensures PutItems(items, k) == StringifyItems(items) + k
    decreases items
  {
    if |items| == 1 {
      PutIsStringify(items[0], k);
    } else if items != [] {
      PutItemsIsStringify(items[1..], k);
      PutIsStringify(items[0], [COMMA] + PutItems(items[1..], k));
    }
  }

  lemma {:induction false} PutMemberIsStringify(m: Member, k: Text)
    ensures PutMember(m, k) == StringifyMember(m) + k
    decreases m
  {
    PutIsStringify(m.value, k);
    PutStringIsQuote(m.key, [COLON] + Put(m.value, k));
    Assoc(Quote(m.key), [COLON], Stringify(m.value) + k);
    Assoc(Quote(m.key) + [COLON], Stringify(m.value), k);
    Assoc([COLON], Stringify(m.value), k);
  }

  lemma {:induction false} PutMembersIsStringify(members: seq<Member>, k: Text)
    ensures PutMembers(members, k) == StringifyMembers(members) + k
    decreases members
  {
    if |members| == 1 {
      PutMemberIsStringify(members[0], k);
    } else if members != [] {
      PutMembersIsStringify(members[1..], k);
      PutMemberIsStringify(members[0], [COMMA] + PutMembers(members[1..], k));
    }
  }

  lemma ReadUnitBack(c: CodeUnit, k: Text)
    ensures EscapeUnit(c) != [QUOTE]
    ensures ReadUnit(EscapeUnit(c) + k) == Done(c, k)
    ensures (EscapeUnit(c) + k)[0] != QUOTE
  {
    if ShortEscape(c) != 0 {
      assert ([BACKSLASH, ShortEscape(c)] + k)[2..] == k;
    } else if c < 0x20 || IsSurrogate(c) {
      assert (UnicodeEscape(c) + k)[6..] == k;
      HexRoundTrip(c);
    } else {
      assert ([c] + k)[1..] == k;
    }
  }

  lemma HexRoundTrip(c: CodeUnit)
    ensures
      var a, b, d, e := c / 0x1000, c / 0x100 % 16, c / 0x10 % 16, c % 16;
      && c == a * 0x1000 + b * 0x100 + d * 0x10 + e
      && HexValue(HexDigit(a)) == a && HexValue(HexDigit(b)) == b
      && HexValue(HexDigit(d)) == d && HexValue(HexDigit(e)) == e
  {
    assert c / 0x100 == c / 0x10 / 16 && c / 0x1000 == c / 0x100 / 16;
  }

  /** Reading a unit and then the rest of the body. */
  lemma ReadStringStep(c: CodeUnit, t: Text, k: Text, tail: Text)
    requires t != [] && t[0] != QUOTE && ReadUnit(t).Done? && ReadUnit(t).value == c
    requires ReadString(ReadUnit(t).rest) == Done(tail, k)
    ensures ReadString(t) == Done([c] + tail, k)
  {
  }

  lemma {:induction false} ReadStringBack(s: Text, k: Text)
    ensures ReadString(PutString(s, k)) == Done(s, k)
    decreases |s|
  {
    if s == [] {
      assert PutString(s, k)[1..] == k;
    } else if StartsWithPair(s) {
      ReadStringBack(s[2..], k);
      var tail := PutString(s[2..], k);
      var second := [s[1]] + tail;
      assert second[1..] == tail;
      ReadStringStep(s[1], second, k, s[2..]);
      var first := [s[0]] + second;
      assert first[1..] == second;
      ReadStringStep(s[0], first, k, [s[1]] + s[2..]);
      assert s == [s[0]] + ([s[1]] + s[2..]);
    } else {
      ReadStringBack(s[1..], k);
      var tail := PutString(s[1..], k);
      ReadUnitBack(s[0], tail);
      ReadStringStep(s[0], EscapeUnit(s[0]) + tail, k, s[1..]);
      assert s == [s[0]] + s[1..];
    }
  }

  /** Number text ends where the next unit is no digit. */
  predicate Delimited(k: Text) {
    k == [] || !IsDigit(k[0])
  }

  lemma {:induction false} ReadDigitsBack(n: nat, k: Text)
    ensures ReadDigits(0, Decimal(n) + k) == ReadDigits(n, k)
    ensures |Decimal(n)| > 0 && IsDigit(Decimal(n)[0]) && (Decimal(n)[0] == ZERO <==> n == 0)
  {
    if n < 10 {
      assert ([ZERO + n] + k)[1..] == k;
    } else {
      var d: Text := [ZERO + n % 10];
      assert Decimal(n) + k == Decimal(n / 10) + (d + k);
      ReadDigitsBack(n / 10, d + k);
      assert (d + k)[1..] == k;
    }
  }

  lemma ReadNaturalBack(n: nat, k: Text)
    requires Delimited(k)
    ensures ReadNatural(Decimal(n) + k) == Done(n, k)
  {
    ReadDigitsBack(n, k);
    assert ReadDigits(n, k) == (n, k);
    if n == 0 {
      ZeroTail(k);
    } else {
      FirstDigit(Decimal(n) + k);
    }
  }

  lemma ZeroTail(k: Text)
    ensures Decimal(0) + k == [ZERO] + k && ([ZERO] + k)[1..] == k
  {
  }

  lemma FirstDigit(t: Text)
    requires t != [] && IsDigit(t[0])
    ensures ReadDigits(0, t) == ReadDigits(t[0] - ZERO, t[1..])
  {
  }

  lemma ReadMinus(digits: Text, n: int, k: Text)
    requires ReadNatural(digits) == Done(n, k)
    ensures ReadNumber([MINUS] + digits) == Done(-n, k)
  {
    assert ([MINUS] + digits)[1..] == digits;
  }

  lemma ReadNumberBack(n: int, k: Text)
    requires Delimited(k)
    ensures |Number(n)| > 0 && (Number(n)[0] == MINUS || IsDigit(Number(n)[0]))
    ensures ReadNumber(Number(n) + k) == Done(n, k)
  {
    var magnitude: nat := if n < 0 then -n else n;
    ReadDigitsBack(magnitude, k);
    ReadNaturalBack(magnitude, k);
    if n < 0 {
      ReadMinus(Decimal(magnitude) + k, magnitude, k);
      assert Number(n) + k == [MINUS] + (Decimal(magnitude) + k);
    }
  }

  lemma ReadPrimitiveBack(v: Value, k: Text)
    requires Delimited(k) && !v.Arr? && !v.Obj?
    ensures ReadValue(Put(v, k)) == Done(v, k)
    ensures Put(v, k) != [] && !IsSpace(Put(v, k)[0])
    ensures Put(v, k)[0] != RBRACKET
  {
    var t := Put(v, k);
    match v
    case Null =>
      assert t[4..] == k;
    case Bool(flag) =>
      assert t[0] == if flag then 0x74 else 0x66;
      assert t[(if flag then 4 else 5)..] == k;
    case Num(n) =>
      ReadNumberBack(n, k);
      assert t[0] == Number(n)[0];
    case Str(s) =>
      assert t[1..] == PutString(s, k);
      ReadStringBack(s, k);
  }

  /** An array, given how the text after its opening bracket reads. */
  lemma ReadArrayBack(body: Text, items: seq<Value>, k: Text)
    requires items == [] ==> body == [RBRACKET] + k
    requires items != [] ==>
      ReadItems(body) == Done(items, k) && body != [] && !IsSpace(body[0]) && body[0] != RBRACKET
    ensures ReadArray(body) == Done(Arr(items), k)
  {
    assert SkipSpace(body) == body;
    if items == [] {
      assert body[1..] == k;
    }
  }

  /** The same for an object. */
  lemma ReadObjectBack(body: Text, members: seq<Member>, k: Text)
    requires members == [] ==> body == [RBRACE] + k
    requires members != [] ==> ReadMembers(body) == Done(members, k) && body != [] && body[0] == QUOTE
    ensures ReadObject(body) == Done(Obj(members), k)
  {
    assert SkipSpace(body) == body;
    if members == [] {
      assert body[1..] == k;
    }
  }

  /** An opening bracket or brace decides how to read on. */
  lemma ReadBracketed(body: Text)
    ensures ReadValue([LBRACKET] + body) == ReadArray(body)
    ensures ReadValue([LBRACE] + body) == ReadObject(body)
  {
    var t, u := [LBRACKET] + body, [LBRACE] + body;
    assert t[0] == LBRACKET && t[1..] == body && SkipSpace(t) == t;
    assert u[0] == LBRACE && u[1..] == body && SkipSpace(u) == u;
  }

  lemma {:induction false} ReadValueBack(v: Value, k: Text)
    requires Delimited(k)
    ensures ReadValue(Put(v, k)) == Done(v, k)
    ensures Put(v, k) != [] && !IsSpace(Put(v, k)[0])
    ensures Put(v, k)[0] != RBRACKET
    decreases v
  {
    match v
    case Arr(items) =>
      if items != [] {
        ReadItemsBack(items, k);
      }
      ReadArrayBack(PutItems(items, [RBRACKET] + k), items, k);
      ReadBracketed(PutItems(items, [RBRACKET] + k));
    case Obj(members) =>
      if members != [] {
        ReadMembersBack(members, k);
      }
      ReadObjectBack(PutMembers(members, [RBRACE] + k), members, k);
      ReadBracketed(PutMembers(members, [RBRACE] + k));
    case _ => ReadPrimitiveBack(v, k);
  }

  /** The last item before the closing bracket. */
  lemma ReadItemsLast(t: Text, v: Value, k: Text)
    requires ReadValue(t) == Done(v, [RBRACKET] + k)
    ensures ReadItems(t) == Done([v], k)
  {
    var u := [RBRACKET] + k;
    assert SkipSpace(u) == u && u[1..] == k;
  }

  /** One more item before a comma and the rest. */
  lemma ReadItemsStep(t: Text, v: Value, rest: Text, tail: seq<Value>, k: Text)
    requires ReadValue(t) == Done(v, [COMMA] + rest) && ReadItems(rest) == Done(tail, k)
    ensures ReadItems(t) == Done([v] + tail, k)
  {
    var u := [COMMA] + rest;
    assert SkipSpace(u) == u && u[1..] == rest;
  }

  lemma {:induction false} ReadItemsBack(items: seq<Value>, k: Text)
    requires items != []
    ensures
      var t := PutItems(items, [RBRACKET] + k);
      && ReadItems(t) == Done(items, k)
      && t != [] && !IsSpace(t[0]) && t[0] != RBRACKET
    decreases items
  {
    var end := [RBRACKET] + k;
    if |items| == 1 {
      ReadValueBack(items[0], end);
      ReadItemsLast(PutItems(items, end), items[0], k);
      assert items == [items[0]];
    } else {
      var tail := PutItems(items[1..], end);
      ReadItemsBack(items[1..], k);
      ReadValueBack(items[0], [COMMA] + tail);
      ReadItemsStep(PutItems(items, end), items[0], tail, items[1..], k);
      assert items == [items[0]] + items[1..];
    }
  }

  lemma {:induction false} ReadMemberBack(m: Member, k: Text)
    requires Delimited(k)
    ensures ReadMember(PutMember(m, k)) == Done(m, k)
    ensures PutMember(m, k) != [] && PutMember(m, k)[0] == QUOTE
    decreases m
  {
    var value := Put(m.value, k);
    var colon := [COLON] + value;
    var t := PutMember(m, k);
    ReadValueBack(m.value, k);
    ReadStringBack(m.key, colon);
    assert t[1..] == PutString(m.key, colon);
    assert SkipSpace(t) == t && SkipSpace(colon) == colon;
    assert colon[1..] == value;
  }

  /** One more member before a comma and the rest. */
  lemma ReadMembersStep(t: Text, m: Member, rest: Text, tail: seq<Member>, k: Text)
    requires ReadMember(t) == Done(m, [COMMA] + rest) && ReadMembers(rest) == Done(tail, k)
    ensures ReadMembers(t) == Done([m] + tail, k)
  {
    var u := [COMMA] + rest;
    assert SkipSpace(u) == u && u[1..] == rest;
  }

  /** The last member before the closing brace. */
  lemma ReadMembersLast(t: Text, m: Member, k: Text)
    requires ReadMember(t) == Done(m, [RBRACE] + k)
    ensures ReadMembers(t) == Done([m], k)
  {
    var u := [RBRACE] + k;
    assert SkipSpace(u) == u && u[1..] == k;
  }

  lemma {:induction false} ReadMembersBack(members: seq<Member>, k: Text)
    requires members != []
    ensures
      var t := PutMembers(members, [RBRACE] + k);
      && ReadMembers(t) == Done(members, k)
      && t != [] && t[0] == QUOTE
    decreases members
  {
    var end := [RBRACE] + k;
    if |members| == 1 {
      ReadMemberBack(members[0], end);
      ReadMembersLast(PutMembers(members, end), members[0], k);
      assert members == [members[0]];
    } else {
      var tail := PutMembers(members[1..], end);
      ReadMembersBack(members[1..], k);
      ReadMemberBack(members[0], [COMMA] + tail);
      ReadMembersStep(PutMembers(members, end), members[0], tail, members[1..], k);
      assert members == [members[0]] + members[1..];
    }
  }

  /** JSON.parse undoes JSON.stringify, order of members included. */
  lemma ParseStringify(v: Value)
    requires WellKeyed(v)
    ensures Parse(Stringify(v)) == Some(v)
  {
    BuildIdentity(v);
    PutIsStringify(v, []);
    ReadValueBack(v, []);
    assert Stringify(v) + [] == Stringify(v);
  }

  // ----------------------------------------------- what printed text contains

  /** Free of control characters, in particular of raw newlines and NULs. */
  predicate Printable(t: Text) {
    forall i :: 0 <= i < |t| ==> t[i] >= 0x20
  }

  /** Text that keeps a well-formed, printable continuation well formed and printable. */
  ghost predicate Safe(t: Text) {
    WellFormed(t) && Printable(t)
  }

  lemma {:induction false} SafePrepend(a: Text, k: Text)
    requires Printable(a) && NoSurrogates(a) && Safe(k)
    ensures Safe(a + k)
  {
    if a == [] {
      assert a + k == k;
    } else {
      SafePrepend(a[1..], k);
      assert (a + k)[1..] == a[1..] + k;
      assert !IsSurrogate(a[0]) && a[0] >= 0x20;
      assert (a + k)[0] == a[0];
      assert forall i :: 1 <= i < |a + k| ==> (a + k)[i] == (a[1..] + k)[i - 1];
    }
  }

  lemma PairSafe(high: CodeUnit, low: CodeUnit, k: Text)
    requires IsHighSurrogate(high) && IsLowSurrogate(low) && Safe(k)
    ensures Safe([high] + ([low] + k))
  {
    var t := [high] + ([low] + k);
    assert t[2..] == k && StartsWithPair(t);
    assert forall i :: 2 <= i < |t| ==> t[i] == k[i - 2];
  }

  lemma {:induction false} PutUnitsSafe(s: Text, k: Text)
    requires Safe(k)
    ensures Safe(PutUnits(s, k))
    decreases |s|
  {
    if s == [] {
    } else if StartsWithPair(s) {
      PutUnitsSafe(s[2..], k);
      PairSafe(s[0], s[1], PutUnits(s[2..], k));
    } else {
      PutUnitsSafe(s[1..], k);
      SafePrepend(EscapeUnit(s[0]), PutUnits(s[1..], k));
    }
  }

  lemma {:induction false} DecimalSafe(n: nat, k: Text)
    requires Safe(k)
    ensures Safe(Decimal(n) + k)
  {
    if n < 10 {
      SafePrepend([ZERO + n], k);
    } else {
      SafePrepend([ZERO + n % 10], k);
      DecimalSafe(n / 10, [ZERO + n % 10] + k);
      assert Decimal(n) + k == Decimal(n / 10) + ([ZERO + n % 10] + k);
    }
  }

  lemma StringSafe(s: Text, k: Text)
    requires Safe(k)
    ensures Safe([QUOTE] + PutString(s, k))
  {
    SafePrepend([QUOTE], k);
    PutUnitsSafe(s, [QUOTE] + k);
    SafePrepend([QUOTE], PutString(s, k));
  }

  lemma NumberSafe(n: int, k: Text)
    requires Safe(k)
    ensures Safe(Number(n) + k)
  {
    DecimalSafe(if n < 0 then -n else n, k);
    if n < 0 {
      SafePrepend([MINUS], Decimal(-n) + k);
      assert Number(n) + k == [MINUS] + (Decimal(-n) + k);
    }
  }

  lemma {:induction false} PutSafe(v: Value, k: Text)
    requires Safe(k)
    ensures Safe(Put(v, k))
    decreases v
  {
    match v
    case Null => SafePrepend(NULL, k);
    case Bool(flag) => SafePrepend(if flag then TRUE else FALSE, k);
    case Num(n) => NumberSafe(n, k);
    case Str(s) => StringSafe(s, k);
    case Arr(items) =>
      SafePrepend([RBRACKET], k);
      PutItemsSafe(items, [RBRACKET] + k);
      SafePrepend([LBRACKET], PutItems(items, [RBRACKET] + k));
    case Obj(members) =>
      SafePrepend([RBRACE], k);
      PutMembersSafe(members, [RBRACE] + k);
      SafePrepend([LBRACE], PutMembers(members, [RBRACE] + k));
  }

  lemma {:induction false} PutItemsSafe(items: seq<Value>, k: Text)
    requires Safe(k)
    ensures Safe(PutItems(items, k))
    decreases items
  {
    if |items| == 1 {
      PutSafe(items[0], k);
    } else if items != [] {
      PutItemsSafe(items[1..], k);
      SafePrepend([COMMA], PutItems(items[1..], k));
      PutSafe(items[0], [COMMA] + PutItems(items[1..], k));
    }
  }

  lemma {:induction false} PutMembersSafe(members: seq<Member>, k: Text)
    requires Safe(k)
    ensures Safe(PutMembers(members, k))
    decreases members
  {
    if members != [] {
      var m := members[0];
      assert m.value < m;
      var rest := if |members| == 1 then k else [COMMA] + PutMembers(members[1..], k);
      if |members| > 1 {
        PutMembersSafe(members[1..], k);
        SafePrepend([COMMA], PutMembers(members[1..], k));
      }
      PutSafe(m.value, rest);
      SafePrepend([COLON], Put(m.value, rest));
      StringSafe(m.key, [COLON] + Put(m.value, rest));
    }
  }

  /**
   Printed JSON is never empty, has no control character, and is well-formed UTF-16
   even when the tree holds lone surrogates, so encoding it as UTF-8 loses nothing.
   */
  lemma StringifySafe(v: Value)
    ensures Stringify(v) != [] && Printable(Stringify(v)) && WellFormed(Stringify(v))
  {
    PutIsStringify(v, []);
    PutSafe(v, []);
    ReadValueBack(v, []);
    assert Stringify(v) + [] == Stringify(v);
  }
}
