/** JSON values, the printer of one string or one value (JSON.stringify; sections 6 and 7 of
    RFC 8259), and a reader that undoes it. */
module Json {
  import opened Wrappers
  import opened CodeUnits

  const QUOTE: unit := 0x22
  const BACKSLASH: unit := 0x5C
  const COMMA: unit := 0x2C
  const COLON: unit := 0x3A
  const OPEN_LIST: unit := 0x5B
  const CLOSE_LIST: unit := 0x5D
  const OPEN_RECORD: unit := 0x7B
  const CLOSE_RECORD: unit := 0x7D
  const SMALL_U: unit := 0x75
  const NEWLINE: unit := 0x0A

  const NULL_TEXT: Text := [0x6E, 0x75, 0x6C, 0x6C]
  const TRUE_TEXT: Text := [0x74, 0x72, 0x75, 0x65]
  const FALSE_TEXT: Text := [0x66, 0x61, 0x6C, 0x73, 0x65]

  /** The characters of a printed number: digits + - . e */
  predicate IsNumberUnit(u: unit) {
    0x30 <= u <= 0x39 || u == 0x2B || u == 0x2D || u == 0x2E || u == 0x65
  }

  /** A number, as JSON.stringify writes it: a digit or a minus sign, then number characters. */
  type NumberText = t: Text | t != [] && (0x30 <= t[0] <= 0x39 || t[0] == 0x2D) && forall u :: u in t ==> IsNumberUnit(u)
    witness [0x30]

  datatype Member = Member(key: Text, value: Value)
  datatype Value =
    | Null
    | Undefined
    | Bool(on: bool)
    | Number(digits: NumberText)
    | Str(text: Text)
    | List(items: seq<Value>)
    | Record(members: seq<Member>)

  // ---------------------------------------------------------------- strings

  predicate IsHigh(u: unit) { 0xD800 <= u < 0xDC00 }
  predicate IsLow(u: unit) { 0xDC00 <= u < 0xE000 }

  function HexDigit(n: int): unit
    requires 0 <= n < 16
  {
    if n < 10 then 0x30 + n else 0x57 + n
  }

  function HexValue(u: unit): Option<int> {
    if 0x30 <= u <= 0x39 then Some(u - 0x30)
    else if 0x61 <= u <= 0x66 then Some(u - 0x57)
    else None
  }

  function Hex4(u: unit): Text {
    [HexDigit(u / 4096), HexDigit(u / 256 % 16), HexDigit(u / 16 % 16), HexDigit(u % 16)]
  }

  /** The letter of a two-character escape. */
  function ShortEscape(u: unit): Option<unit> {
    if u == QUOTE then Some(QUOTE)
    else if u == BACKSLASH then Some(BACKSLASH)
    else if u == 0x08 then Some(0x62)
    else if u == 0x09 then Some(0x74)
    else if u == 0x0A then Some(0x6E)
    else if u == 0x0C then Some(0x66)
    else if u == 0x0D then Some(0x72)
    else None
  }

  function EscapeUnit(u: unit): Text {
    if ShortEscape(u).Some? then [BACKSLASH, ShortEscape(u).value]
    else if u < 0x20 || IsHigh(u) || IsLow(u) then [BACKSLASH, SMALL_U] + Hex4(u)
    else [u]
  }

  /** Surrogate pairs are copied, lone surrogates are escaped. */
  function Escape(s: Text): Text {
    if s == [] then []
    else if |s| > 1 && IsHigh(s[0]) && IsLow(s[1]) then [s[0], s[1]] + Escape(s[2..])
    else EscapeUnit(s[0]) + Escape(s[1..])
  }

  function Quote(s: Text): Text {
    [QUOTE] + Escape(s) + [QUOTE]
  }

  /** A unit is printed as itself exactly when it is no control, quote, backslash or lone surrogate. */
  lemma {:induction false} PlainIff(u: unit)
    ensures EscapeUnit(u) == [u] <==> 0x20 <= u && u != 0x22 && u != 0x5C && !(0xD800 <= u < 0xE000)
  {
    assert EscapeUnit(u) == [u] ==> |EscapeUnit(u)| == 1;
  }

  function Unescape(letter: unit): Option<unit> {
    if letter == QUOTE || letter == BACKSLASH then Some(letter)
    else if letter == 0x62 then Some(0x08)
    else if letter == 0x74 then Some(0x09)
    else if letter == 0x6E then Some(0x0A)
    else if letter == 0x66 then Some(0x0C)
    else if letter == 0x72 then Some(0x0D)
    else None
  }

  datatype Read<T> = Read(value: T, rest: Text)

  /** The first code unit of an escaped string and what follows it. */
  function ReadUnit(x: Text): (r: Option<Read<unit>>)
    ensures r.Some? ==> |r.value.rest| < |x|
  {
    if x == [] then None
    else if x[0] != BACKSLASH then Some(Read(x[0], x[1..]))
    else if |x| < 2 then None
    else if x[1] != SMALL_U then
      if Unescape(x[1]).Some? then Some(Read(Unescape(x[1]).value, x[2..])) else None
    else if |x| < 6 then None
    else
      var a, b, c, d := HexValue(x[2]), HexValue(x[3]), HexValue(x[4]), HexValue(x[5]);
      if a.Some? && b.Some? && c.Some? && d.Some? then
        Some(Read(a.value * 4096 + b.value * 256 + c.value * 16 + d.value, x[6..]))
      else None
  }

  /** The rest of a string up to its closing quote. */
  function ReadString(x: Text): (r: Option<Read<Text>>)
    ensures r.Some? ==> |r.value.rest| < |x|
    decreases |x|
  {
    if x == [] then None
    else if x[0] == QUOTE then Some(Read([], x[1..]))
    else
      var head := ReadUnit(x);
      if head.None? then None
      else
        var tail := ReadString(head.value.rest);
        if tail.None? then None else Some(Read([head.value.value] + tail.value.value, tail.value.rest))
  }

  lemma {:induction false} ReadShortEscape(u: unit, r: Text)
    requires ShortEscape(u).Some?
    ensures ReadUnit([BACKSLASH, ShortEscape(u).value] + r) == Some(Read(u, r))
  {
    assert ([BACKSLASH, ShortEscape(u).value] + r)[2..] == r;
  }

  lemma {:induction false} HexRoundTrip(n: int)
    requires 0 <= n < 16
    ensures HexValue(HexDigit(n)) == Some(n)
  {
  }

  lemma {:induction false} ReadHexEscape(u: unit, r: Text)
    ensures ReadUnit([BACKSLASH, SMALL_U] + Hex4(u) + r) == Some(Read(u, r))
  {
    var x := [BACKSLASH, SMALL_U] + Hex4(u) + r;
    assert x[6..] == r;
    HexRoundTrip(u / 4096);
    HexRoundTrip(u / 256 % 16);
    HexRoundTrip(u / 16 % 16);
    HexRoundTrip(u % 16);
    HexSum(u);
  }

  lemma {:induction false} HexSum(u: unit)
    ensures u == u / 4096 * 4096 + u / 256 % 16 * 256 + u / 16 % 16 * 16 + u % 16
  {
    assert u / 256 == u / 16 / 16 && u / 4096 == u / 256 / 16;
    assert u / 256 == u / 4096 * 16 + u / 256 % 16;
    assert u / 16 == u / 256 * 16 + u / 16 % 16;
  }

  lemma {:induction false} ReadEscapedUnit(u: unit, r: Text)
    ensures EscapeUnit(u) != [] && EscapeUnit(u)[0] != QUOTE
    ensures ReadUnit(EscapeUnit(u) + r) == Some(Read(u, r))
  {
    if ShortEscape(u).Some? {
      ReadShortEscape(u, r);
    } else if u < 0x20 || IsHigh(u) || IsLow(u) {
      ReadHexEscape(u, r);
    } else {
      assert (EscapeUnit(u) + r)[1..] == r;
    }
  }

  lemma {:induction false} ReadOne(x: Text, u: unit, rest: Text, t: Text, r: Text)
    requires x != [] && x[0] != QUOTE && ReadUnit(x) == Some(Read(u, rest)) && ReadString(rest) == Some(Read(t, r))
    ensures ReadString(x) == Some(Read([u] + t, r))
  {
  }

  lemma {:induction false} Regroup<T>(p: seq<T>, q: seq<T>, c: seq<T>, r: seq<T>)
    ensures (p + q) + c + r == p + (q + c + r)
  {
  }

  lemma {:induction false} RegroupMiddle<T>(p: seq<T>, m: seq<T>, q: seq<T>, c: seq<T>, r: seq<T>)
    ensures (p + m + q) + c + r == p + (m + (q + c + r))
    ensures p + c + r == p + (c + r)
  {
  }

  lemma {:induction false} ReadLiteral(u: unit, rest: Text, t: Text, r: Text)
    requires u != QUOTE && u != BACKSLASH && ReadString(rest) == Some(Read(t, r))
    ensures ReadString([u] + rest) == Some(Read([u] + t, r))
  {
    assert ([u] + rest)[1..] == rest;
  }

  lemma {:induction false} ReadPair(s: Text, rest: Text, r: Text)
    requires |s| > 1 && IsHigh(s[0]) && IsLow(s[1]) && ReadString(rest) == Some(Read(s[2..], r))
    ensures ReadString([s[0], s[1]] + rest) == Some(Read(s, r))
  {
    ReadLiteral(s[1], rest, s[2..], r);
    ReadLiteral(s[0], [s[1]] + rest, [s[1]] + s[2..], r);
    assert [s[0], s[1]] + rest == [s[0]] + ([s[1]] + rest);
    assert s == [s[0]] + ([s[1]] + s[2..]);
  }

  lemma {:induction false} ReadEscape(s: Text, rest: Text, r: Text)
    requires s != [] && ReadString(rest) == Some(Read(s[1..], r))
    ensures ReadString(EscapeUnit(s[0]) + rest) == Some(Read(s, r))
  {
    ReadEscapedUnit(s[0], rest);
    ReadOne(EscapeUnit(s[0]) + rest, s[0], rest, s[1..], r);
    assert s == [s[0]] + s[1..];
  }

  /** Reading undoes escaping, whatever follows the closing quote. */
  lemma {:induction false} ReadEscaped(s: Text, r: Text)
    ensures ReadString(Escape(s) + [QUOTE] + r) == Some(Read(s, r))
  {
    if s == [] {
      assert (Escape(s) + [QUOTE] + r)[1..] == r;
    } else if |s| > 1 && IsHigh(s[0]) && IsLow(s[1]) {
      ReadEscaped(s[2..], r);
      ReadPair(s, Escape(s[2..]) + [QUOTE] + r, r);
      Regroup([s[0], s[1]], Escape(s[2..]), [QUOTE], r);
    } else {
      ReadEscaped(s[1..], r);
      ReadEscape(s, Escape(s[1..]) + [QUOTE] + r, r);
      Regroup(EscapeUnit(s[0]), Escape(s[1..]), [QUOTE], r);
    }
  }

  // ---------------------------------------------------------------- values

  /** Print a value with its members in the order given. */
  function Print(v: Value): Text {
    match v
    case Null | Undefined => NULL_TEXT
    case Bool(on) => if on then TRUE_TEXT else FALSE_TEXT
    case Number(digits) => digits
    case Str(text) => Quote(text)
    case List(items) => [OPEN_LIST] + PrintItems(items) + [CLOSE_LIST]
    case Record(members) => [OPEN_RECORD] + PrintMembers(members) + [CLOSE_RECORD]
  }

  /** map(...).join(',') */
  function PrintItems(items: seq<Value>): Text {
    if items == [] then []
    else if |items| == 1 then Print(items[0])
    else Print(items[0]) + [COMMA] + PrintItems(items[1..])
  }

  function PrintMember(m: Member): Text {
    Quote(m.key) + [COLON] + Print(m.value)
  }

  function PrintMembers(members: seq<Member>): Text {
    if members == [] then []
    else if |members| == 1 then PrintMember(members[0])
    else PrintMember(members[0]) + [COMMA] + PrintMembers(members[1..])
  }

  /** The longest run of number characters. */
  function ReadNumber(x: Text): (r: Read<Text>)
    ensures |r.rest| + |r.value| == |x|
    ensures forall u :: u in r.value ==> IsNumberUnit(u)
    ensures r.value <= x
  {
    if x == [] || !IsNumberUnit(x[0]) then Read([], x)
    else
      var tail := ReadNumber(x[1..]);
      Read([x[0]] + tail.value, tail.rest)
  }

  function ReadValue(x: Text): (r: Option<Read<Value>>)
    ensures r.Some? ==> |r.value.rest| < |x|
    decreases |x|, 0
  {
    if x == [] then None
    else if NULL_TEXT <= x then Some(Read(Null, x[4..]))
    else if TRUE_TEXT <= x then Some(Read(Bool(true), x[4..]))
    else if FALSE_TEXT <= x then Some(Read(Bool(false), x[5..]))
    else if x[0] == QUOTE then
      var s := ReadString(x[1..]);
      if s.None? then None else Some(Read(Str(s.value.value), s.value.rest))
    else if 0x30 <= x[0] <= 0x39 || x[0] == 0x2D then
      var n := ReadNumber(x);
      assert n.value == [] || n.value[0] == x[0];
      Some(Read(Number(n.value), n.rest))
    else if x[0] == OPEN_LIST then
      if |x| > 1 && x[1] == CLOSE_LIST then Some(Read(List([]), x[2..]))
      else
        var items := ReadItems(x[1..]);
        if items.None? then None else Some(Read(List(items.value.value), items.value.rest))
    else if x[0] == OPEN_RECORD then
      if |x| > 1 && x[1] == CLOSE_RECORD then Some(Read(Record([]), x[2..]))
      else
        var members := ReadMembers(x[1..]);
        if members.None? then None else Some(Read(Record(members.value.value), members.value.rest))
    else None
  }

  function ReadItems(x: Text): (r: Option<Read<seq<Value>>>)
    ensures r.Some? ==> |r.value.rest| < |x|
    decreases |x|, 1
  {
    var head := ReadValue(x);
    if head.None? || head.value.rest == [] then None
    else if head.value.rest[0] == CLOSE_LIST then Some(Read([head.value.value], head.value.rest[1..]))
    else if head.value.rest[0] != COMMA then None
    else
      var tail := ReadItems(head.value.rest[1..]);
      if tail.None? then None else Some(Read([head.value.value] + tail.value.value, tail.value.rest))
  }

  function ReadMember(x: Text): (r: Option<Read<Member>>)
    ensures r.Some? ==> |r.value.rest| < |x|
    decreases |x|, 0
  {
    if x == [] || x[0] != QUOTE then None
    else
      var key := ReadString(x[1..]);
      if key.None? || key.value.rest == [] || key.value.rest[0] != COLON then None
      else
        var value := ReadValue(key.value.rest[1..]);
        if value.None? then None else Some(Read(Member(key.value.value, value.value.value), value.value.rest))
  }

  function ReadMembers(x: Text): (r: Option<Read<seq<Member>>>)
    ensures r.Some? ==> |r.value.rest| < |x|
    decreases |x|, 1
  {
    var head := ReadMember(x);
    if head.None? || head.value.rest == [] then None
    else if head.value.rest[0] == CLOSE_RECORD then Some(Read([head.value.value], head.value.rest[1..]))
    else if head.value.rest[0] != COMMA then None
    else
      var tail := ReadMembers(head.value.rest[1..]);
      if tail.None? then None else Some(Read([head.value.value] + tail.value.value, tail.value.rest))
  }

  /** No undefined anywhere: what a reader can give back. */
  ghost predicate Defined(v: Value) {
    match v
    case Undefined => false
    case List(items) => forall i :: 0 <= i < |items| ==> Defined(items[i])
    case Record(members) => forall i :: 0 <= i < |members| ==> Defined(members[i].value)
    case _ => true
  }

  ghost predicate EndsNumber(r: Text) {
    r == [] || !IsNumberUnit(r[0])
  }

  lemma {:induction false} ReadDigits(t: Text, r: Text)
    requires EndsNumber(r) && forall u :: u in t ==> IsNumberUnit(u)
    ensures ReadNumber(t + r) == Read(t, r)
  {
    if t == [] {
      assert t + r == r;
    } else {
      assert (t + r)[1..] == t[1..] + r;
      ReadDigits(t[1..], r);
      assert t == [t[0]] + t[1..];
    }
  }

  /** What a printed value starts with tells its kind. */
  lemma {:induction false} PrintedHead(v: Value)
    ensures Print(v) != []
    ensures Print(v)[0] != CLOSE_LIST && Print(v)[0] != CLOSE_RECORD
  {
  }

  lemma {:induction false} ReadAtom(v: Value, r: Text)
    requires v.Null? || v.Bool?
    ensures ReadValue(Print(v) + r) == Some(Read(v, r))
  {
    var x := Print(v) + r;
    var t := Print(v);
    assert t <= x && x[|t|..] == r && x[0] == t[0] && x[3] == t[3];
    assert !(NULL_TEXT <= x && t != NULL_TEXT) && !(TRUE_TEXT <= x && t != TRUE_TEXT);
  }

  lemma {:induction false} ReadNumeral(digits: NumberText, r: Text)
    requires EndsNumber(r)
    ensures ReadValue(digits + r) == Some(Read(Number(digits), r))
  {
    ReadDigits(digits, r);
    assert (digits + r)[0] == digits[0];
  }

  lemma {:induction false} ReadQuoted(text: Text, r: Text)
    ensures ReadValue(Quote(text) + r) == Some(Read(Str(text), r))
  {
    var x := Quote(text) + r;
    assert x[0] == QUOTE && x[1..] == Escape(text) + [QUOTE] + r;
    ReadEscaped(text, r);
  }

  lemma {:induction false} NoLiteral(x: Text)
    requires x != [] && x[0] != 0x6E && x[0] != 0x74 && x[0] != 0x66
    ensures !(NULL_TEXT <= x) && !(TRUE_TEXT <= x) && !(FALSE_TEXT <= x)
  {
  }

  lemma {:induction false} ReadListBody(y: Text, items: seq<Value>, r: Text)
    requires y != [] && y[0] != CLOSE_LIST && ReadItems(y) == Some(Read(items, r))
    ensures ReadValue([OPEN_LIST] + y) == Some(Read(List(items), r))
  {
    NoLiteral([OPEN_LIST] + y);
    assert ([OPEN_LIST] + y)[1..] == y;
  }

  lemma {:induction false} ReadRecordBody(y: Text, members: seq<Member>, r: Text)
    requires y != [] && y[0] != CLOSE_RECORD && ReadMembers(y) == Some(Read(members, r))
    ensures ReadValue([OPEN_RECORD] + y) == Some(Read(Record(members), r))
  {
    NoLiteral([OPEN_RECORD] + y);
    assert ([OPEN_RECORD] + y)[1..] == y;
  }

  lemma {:induction false} ReadEmpty(r: Text)
    ensures ReadValue([OPEN_LIST] + [CLOSE_LIST] + r) == Some(Read(List([]), r))
    ensures ReadValue([OPEN_RECORD] + [CLOSE_RECORD] + r) == Some(Read(Record([]), r))
  {
    NoLiteral([OPEN_LIST] + [CLOSE_LIST] + r);
    NoLiteral([OPEN_RECORD] + [CLOSE_RECORD] + r);
    assert ([OPEN_LIST] + [CLOSE_LIST] + r)[2..] == r;
    assert ([OPEN_RECORD] + [CLOSE_RECORD] + r)[2..] == r;
  }

  /** Reading undoes printing. */
  lemma {:induction false} ReadPrinted(v: Value, r: Text)
    requires Defined(v) && EndsNumber(r)
    ensures ReadValue(Print(v) + r) == Some(Read(v, r))
    decreases v, 0
  {
    match v
    case Null => ReadAtom(v, r);
    case Bool(_) => ReadAtom(v, r);
    case Number(digits) => ReadNumeral(digits, r);
    case Str(text) => ReadQuoted(text, r);
    case List(items) =>
      if items == [] {
        ReadEmpty(r);
        assert PrintItems(items) == [];
        assert Print(v) == [OPEN_LIST] + [CLOSE_LIST];
      } else {
        var y := PrintItems(items) + [CLOSE_LIST] + r;
        ReadPrintedItems(items, r);
        PrintedHead(items[0]);
        ReadListBody(y, items, r);
        Regroup([OPEN_LIST], PrintItems(items), [CLOSE_LIST], r);
      }
    case Record(members) =>
      if members == [] {
        ReadEmpty(r);
        assert PrintMembers(members) == [];
        assert Print(v) == [OPEN_RECORD] + [CLOSE_RECORD];
      } else {
        var y := PrintMembers(members) + [CLOSE_RECORD] + r;
        ReadPrintedMembers(members, r);
        MembersHead(members);
        ReadRecordBody(y, members, r);
        Regroup([OPEN_RECORD], PrintMembers(members), [CLOSE_RECORD], r);
      }
  }

  lemma {:induction false} LastItem(head: Text, v: Value, r: Text)
    requires ReadValue(head + ([CLOSE_LIST] + r)) == Some(Read(v, [CLOSE_LIST] + r))
    ensures ReadItems(head + [CLOSE_LIST] + r) == Some(Read([v], r))
  {
    RegroupMiddle(head, [], [], [CLOSE_LIST], r);
    assert ([CLOSE_LIST] + r)[1..] == r;
  }

  lemma {:induction false} OneMoreItem(head: Text, tail: Text, v: Value, vs: seq<Value>, r: Text)
    requires ReadValue(head + ([COMMA] + (tail + [CLOSE_LIST] + r))) == Some(Read(v, [COMMA] + (tail + [CLOSE_LIST] + r)))
    requires ReadItems(tail + [CLOSE_LIST] + r) == Some(Read(vs, r))
    ensures ReadItems((head + [COMMA] + tail) + [CLOSE_LIST] + r) == Some(Read([v] + vs, r))
  {
    var rest := tail + [CLOSE_LIST] + r;
    assert ([COMMA] + rest)[1..] == rest;
    RegroupMiddle(head, [COMMA], tail, [CLOSE_LIST], r);
  }

  lemma {:induction false} OnlyItem(items: seq<Value>, r: Text)
    requires |items| == 1
    requires ReadValue(Print(items[0]) + ([CLOSE_LIST] + r)) == Some(Read(items[0], [CLOSE_LIST] + r))
    ensures ReadItems(PrintItems(items) + [CLOSE_LIST] + r) == Some(Read(items, r))
  {
    LastItem(Print(items[0]), items[0], r);
    assert items == [items[0]];
  }

  lemma {:induction false} FirstItem(items: seq<Value>, tail: Text, r: Text)
    requires |items| > 1 && tail == PrintItems(items[1..])
    requires ReadValue(Print(items[0]) + ([COMMA] + (tail + [CLOSE_LIST] + r))) == Some(Read(items[0], [COMMA] + (tail + [CLOSE_LIST] + r)))
    requires ReadItems(tail + [CLOSE_LIST] + r) == Some(Read(items[1..], r))
    ensures ReadItems(PrintItems(items) + [CLOSE_LIST] + r) == Some(Read(items, r))
  {
    OneMoreItem(Print(items[0]), tail, items[0], items[1..], r);
    assert PrintItems(items) == Print(items[0]) + [COMMA] + tail;
    assert items == [items[0]] + items[1..];
  }

  lemma {:induction false} ReadPrintedItems(items: seq<Value>, r: Text)
    requires items != [] && forall i :: 0 <= i < |items| ==> Defined(items[i])
    ensures ReadItems(PrintItems(items) + [CLOSE_LIST] + r) == Some(Read(items, r))
    decreases items, 1
  {
    if |items| == 1 {
      ReadPrinted(items[0], [CLOSE_LIST] + r);
      OnlyItem(items, r);
    } else {
      var tail := PrintItems(items[1..]);
      ReadPrinted(items[0], [COMMA] + (tail + [CLOSE_LIST] + r));
      ReadPrintedItems(items[1..], r);
      FirstItem(items, tail, r);
    }
  }

  lemma {:induction false} ReadKeyed(x: Text, key: Text, rest: Text, v: Value, r: Text)
    requires ReadString(x) == Some(Read(key, [COLON] + rest)) && ReadValue(rest) == Some(Read(v, r))
    ensures ReadMember([QUOTE] + x) == Some(Read(Member(key, v), r))
  {
    assert ([QUOTE] + x)[1..] == x && ([COLON] + rest)[1..] == rest;
  }

  lemma {:induction false} RegroupMember(escaped: Text, value: Text, r: Text)
    ensures ([QUOTE] + escaped + [QUOTE]) + [COLON] + value + r == [QUOTE] + (escaped + [QUOTE] + ([COLON] + (value + r)))
  {
  }

  lemma {:induction false} ReadPrintedMember(m: Member, r: Text)
    requires Defined(m.value) && EndsNumber(r)
    ensures ReadMember(PrintMember(m) + r) == Some(Read(m, r))
    decreases m, 0
  {
    var value := Print(m.value);
    ReadEscaped(m.key, [COLON] + (value + r));
    ReadPrinted(m.value, r);
    ReadKeyed(Escape(m.key) + [QUOTE] + ([COLON] + (value + r)), m.key, value + r, m.value, r);
    RegroupMember(Escape(m.key), value, r);
  }

  lemma {:induction false} LastMember(head: Text, m: Member, r: Text)
    requires ReadMember(head + ([CLOSE_RECORD] + r)) == Some(Read(m, [CLOSE_RECORD] + r))
    ensures ReadMembers(head + [CLOSE_RECORD] + r) == Some(Read([m], r))
  {
    RegroupMiddle(head, [], [], [CLOSE_RECORD], r);
    assert ([CLOSE_RECORD] + r)[1..] == r;
  }

  lemma {:induction false} OneMoreMember(head: Text, tail: Text, m: Member, ms: seq<Member>, r: Text)
    requires ReadMember(head + ([COMMA] + (tail + [CLOSE_RECORD] + r))) == Some(Read(m, [COMMA] + (tail + [CLOSE_RECORD] + r)))
    requires ReadMembers(tail + [CLOSE_RECORD] + r) == Some(Read(ms, r))
    ensures ReadMembers((head + [COMMA] + tail) + [CLOSE_RECORD] + r) == Some(Read([m] + ms, r))
  {
    var rest := tail + [CLOSE_RECORD] + r;
    assert ([COMMA] + rest)[1..] == rest;
    RegroupMiddle(head, [COMMA], tail, [CLOSE_RECORD], r);
  }

  lemma {:induction false} MembersHead(members: seq<Member>)
    requires members != []
    ensures PrintMembers(members) != [] && PrintMembers(members)[0] == QUOTE
  {
    assert PrintMember(members[0])[0] == QUOTE;
  }

  lemma {:induction false} OnlyMember(members: seq<Member>, r: Text)
    requires |members| == 1
    requires ReadMember(PrintMember(members[0]) + ([CLOSE_RECORD] + r)) == Some(Read(members[0], [CLOSE_RECORD] + r))
    ensures ReadMembers(PrintMembers(members) + [CLOSE_RECORD] + r) == Some(Read(members, r))
  {
    LastMember(PrintMember(members[0]), members[0], r);
    assert members == [members[0]];
  }

  lemma {:induction false} PrintFirst(members: seq<Member>)
    requires |members| > 1
    ensures PrintMembers(members) == PrintMember(members[0]) + [COMMA] + PrintMembers(members[1..])
  {
  }

  lemma {:induction false} FirstMember(members: seq<Member>, tail: Text, r: Text)
    requires |members| > 1 && tail == PrintMembers(members[1..])
    requires ReadMember(PrintMember(members[0]) + ([COMMA] + (tail + [CLOSE_RECORD] + r)))
             == Some(Read(members[0], [COMMA] + (tail + [CLOSE_RECORD] + r)))
    requires ReadMembers(tail + [CLOSE_RECORD] + r) == Some(Read(members[1..], r))
    ensures ReadMembers(PrintMembers(members) + [CLOSE_RECORD] + r) == Some(Read(members, r))
  {
    OneMoreMember(PrintMember(members[0]), tail, members[0], members[1..], r);
    PrintFirst(members);
    assert members == [members[0]] + members[1..];
  }

  lemma {:induction false} ReadPrintedMembers(members: seq<Member>, r: Text)
    requires members != [] && forall i :: 0 <= i < |members| ==> Defined(members[i].value)
    ensures ReadMembers(PrintMembers(members) + [CLOSE_RECORD] + r) == Some(Read(members, r))
    decreases members, 1
  {
    if |members| == 1 {
      ReadPrintedMember(members[0], [CLOSE_RECORD] + r);
      OnlyMember(members, r);
    } else {
      var tail := PrintMembers(members[1..]);
      ReadPrintedMember(members[0], [COMMA] + (tail + [CLOSE_RECORD] + r));
      ReadPrintedMembers(members[1..], r);
      FirstMember(members, tail, r);
    }
  }

  /** Parsing what was printed gives the value back. */
  lemma {:induction false} RoundTrip(v: Value)
    requires Defined(v)
    ensures ReadValue(Print(v)) == Some(Read(v, []))
  {
    ReadPrinted(v, []);
    assert Print(v) + [] == Print(v);
  }
}
