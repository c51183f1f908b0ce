/** The encodings agree with what their standards publish: sections 3 to 7 of RFC 8259, section 7 of
    RFC 3629 and section 2.1 of RFC 3986. */
module Standards {
  import opened CodeUnits
  import opened Json
  import Utf8
  import NamespaceKey

  lemma {:induction false} BasicUnits(s: string)
    requires forall i :: 0 <= i < |s| ==> s[i] as int < 0x1_0000
    ensures |Utf16(s)| == |s| && forall i :: 0 <= i < |s| ==> Utf16(s)[i] == s[i] as int
  {
    if s != "" {
      BasicUnits(s[1..]);
    }
  }

  /** The three literal names. */
  lemma {:induction false} LiteralNames(nothing: string, yes: string, no: string)
    requires nothing == "null" && yes == "true" && no == "false"
    ensures Print(Null) == Utf16(nothing) && Print(Bool(true)) == Utf16(yes) && Print(Bool(false)) == Utf16(no)
  {
    BasicUnits(nothing);
    BasicUnits(yes);
    BasicUnits(no);
  }

  /** The brackets and commas of a list. */
  lemma {:induction false} PrintedPair(a: Value, b: Value)
    ensures Print(List([a, b])) == ['[' as int] + (Print(a) + [',' as int] + Print(b)) + [']' as int]
  {
    PairOfItems(a, b, [a, b]);
  }

  lemma {:induction false} PairOfItems(a: Value, b: Value, items: seq<Value>)
    requires items == [a] + [b]
    ensures PrintItems(items) == Print(a) + [COMMA] + Print(b)
  {
    assert items[1..] == [b];
  }

  /** The brackets, commas and colons of a record. */
  lemma {:induction false} PrintedRecord(m: Member, n: Member)
    ensures Print(Record([m, n])) == ['{' as int] + (PrintMember(m) + [',' as int] + PrintMember(n)) + ['}' as int]
    ensures PrintMember(m) == Print(Str(m.key)) + [':' as int] + Print(m.value)
  {
    PairOfMembers(m, n, [m, n]);
  }

  lemma {:induction false} PairOfMembers(m: Member, n: Member, members: seq<Member>)
    requires members == [m] + [n]
    ensures PrintMembers(members) == PrintMember(m) + [COMMA] + PrintMember(n)
  {
    assert members[1..] == [n];
  }

  /** The quotes of a string. */
  lemma {:induction false} PrintedString(text: Text)
    ensures Print(Str(text)) == ['"' as int] + Escape(text) + ['"' as int]
  {
  }

  /** The short escapes, and the form of every other one. */
  lemma {:induction false} Escapes(u: unit)
    ensures EscapeUnit('"' as int) == ['\\' as int, '"' as int] && EscapeUnit('\\' as int) == ['\\' as int, '\\' as int]
    ensures EscapeUnit(0x08) == ['\\' as int, 'b' as int] && EscapeUnit('\t' as int) == ['\\' as int, 't' as int]
    ensures EscapeUnit('\n' as int) == ['\\' as int, 'n' as int] && EscapeUnit(0x0C) == ['\\' as int, 'f' as int]
    ensures EscapeUnit('\r' as int) == ['\\' as int, 'r' as int]
    ensures |EscapeUnit(u)| != 1 && |EscapeUnit(u)| != 2 ==>
              EscapeUnit(u) == ['\\' as int, 'u' as int] + Hex4(u)
  {
  }

  /** The digits of a unit in base sixteen, in lower case. */
  lemma {:induction false} FourDigits(u: unit)
    ensures |Hex4(u)| == 4 && forall i :: 0 <= i < 4 ==> '0' as int <= Hex4(u)[i] <= '9' as int || 'a' as int <= Hex4(u)[i] <= 'f' as int
    ensures Hex4(0x1F) == ['0' as int, '0' as int, '1' as int, 'f' as int]
  {
  }

  // ---------------------------------------------------------------- UTF-8

  /** A, NOT IDENTICAL TO, ALPHA, and the stump of a tree outside the basic plane. */
  lemma {:induction false} PublishedBytes()
    ensures Utf8.EncodeChar('A') == [0x41]
    ensures Utf8.EncodeChar('\U{2262}') == [0xE2, 0x89, 0xA2]
    ensures Utf8.EncodeChar('\U{0391}') == [0xCE, 0x91]
    ensures Utf8.EncodeChar('\U{233B4}') == [0xF0, 0xA3, 0x8E, 0xB4]
  {
  }

  /** A byte that goes on with a character. */
  ghost predicate GoesOn(b: Utf8.byte) {
    0x80 <= b < 0xC0
  }

  /** A character of several bytes leads with one that announces how many, and goes on with six bits a byte. */
  lemma {:induction false} TwoBytesSpell(c: char)
    requires 0x80 <= c as int < 0x800
    ensures var b := Utf8.EncodeChar(c);
            && |b| == 2 && 0xC0 <= b[0] < 0xE0 && GoesOn(b[1])
            && (b[0] as int - 0xC0) * 0x40 + (b[1] as int - 0x80) == c as int
  {
  }

  lemma {:induction false} ThreeBytesSpell(c: char)
    requires 0x800 <= c as int < 0x1_0000
    ensures var b := Utf8.EncodeChar(c);
            && |b| == 3 && 0xE0 <= b[0] < 0xF0 && GoesOn(b[1]) && GoesOn(b[2])
            && (b[0] as int - 0xE0) * 0x1000 + (b[1] as int - 0x80) * 0x40 + (b[2] as int - 0x80) == c as int
  {
    ThreeDigits(c as int);
  }

  lemma {:induction false} ThreeDigits(u: nat)
    ensures u == u / 0x1000 * 0x1000 + u / 0x40 % 0x40 * 0x40 + u % 0x40
  {
    assert u / 0x1000 == u / 0x40 / 0x40;
  }

  lemma {:induction false} FourBytesSpell(c: char)
    requires c as int >= 0x1_0000
    ensures var b := Utf8.EncodeChar(c);
            && |b| == 4 && 0xF0 <= b[0] < 0xF8 && GoesOn(b[1]) && GoesOn(b[2]) && GoesOn(b[3])
            && (b[0] as int - 0xF0) * 0x4_0000 + (b[1] as int - 0x80) * 0x1000 + (b[2] as int - 0x80) * 0x40 + (b[3] as int - 0x80) == c as int
  {
    ThreeDigits(c as int);
    assert c as int / 0x4_0000 == c as int / 0x1000 / 0x40;
  }

  // ---------------------------------------------------------------- percent-encoding

  /** A byte is itself, or a percent sign and its two digits in base sixteen, in upper case. */
  lemma {:induction false} PercentEncoding(b: Utf8.byte)
    ensures var t := NamespaceKey.EncodeByte(b);
            if NamespaceKey.Unreserved(b) then t == [b as char]
            else |t| == 3 && t[0] == '%' && forall i :: 1 <= i < 3 ==> '0' <= t[i] <= '9' || 'A' <= t[i] <= 'F'
    ensures NamespaceKey.EncodeByte(0x2F) == "%2F" && NamespaceKey.EncodeByte(0x3A) == "%3A"
  {
  }
}
