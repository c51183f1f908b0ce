/** shared/imcodes-version.ts: parsing and precedence of versions (section 11 of Semantic
    Versioning 2.0.0, with identifiers lower-cased first).  Numbers are exact here. */
module Version {
  import opened Wrappers
  import Text

  datatype Parts = Parts(major: nat, minor: nat, patch: nat, prerelease: seq<string>)

  // ---------------------------------------------------------------- parsing

  predicate Digit(c: char) { '0' <= c <= '9' }

  /** /^\d+$/ */
  predicate IsNumber(s: string) {
    s != "" && forall i :: 0 <= i < |s| ==> Digit(s[i])
  }

  /** Number(s) */
  function Value(s: string): nat
    requires forall i :: 0 <= i < |s| ==> Digit(s[i])
  {
    if s == "" then 0
    else
      assert Digit(s[|s| - 1]);
      10 * Value(s[..|s| - 1]) + (s[|s| - 1] as int - '0' as int)
  }

  /** String(parsePart(s)) */
  function NormalPart(s: string): string {
    if IsNumber(s) then Text.Decimal(Value(s)) else Text.Lower(s)
  }

  function SplitOn(s: string, separator: char): (r: seq<string>)
    ensures r != []
  {
    if s == "" then [""]
    else
      var tail := SplitOn(s[1..], separator);
      if s[0] == separator then [""] + tail else [[s[0]] + tail[0]] + tail[1..]
  }

  predicate IdentifierChar(c: char) {
    Digit(c) || 'A' <= c <= 'Z' || 'a' <= c <= 'z' || c == '.' || c == '-'
  }

  function DashAt(s: string): (i: nat)
    ensures i <= |s|
  {
    if s == "" || s[0] == '-' then 0 else 1 + DashAt(s[1..])
  }

  function NormalParts(parts: seq<string>): (r: seq<string>)
    ensures |r| == |parts| && forall i :: 0 <= i < |r| ==> r[i] == NormalPart(parts[i])
  {
    seq(|parts|, i requires 0 <= i < |parts| => NormalPart(parts[i]))
  }

  /** /^(\d+)\.(\d+)\.(\d+)(?:-([0-9A-Za-z.-]+))?$/ on the trimmed text */
  function Parse(version: string): Option<Parts> {
    ParseTrimmed(Text.Trim(version))
  }

  function ParseTrimmed(s: string): Option<Parts> {
    var dash := DashAt(s);
    if dash == |s| then ParseParts(SplitOn(s, '.'), None) else ParseParts(SplitOn(s[..dash], '.'), Some(s[dash + 1..]))
  }

  /** The parts in front of the dash, and the text behind it, if there is one. */
  function ParseParts(core: seq<string>, tail: Option<string>): Option<Parts> {
    if |core| != 3 || !IsNumber(core[0]) || !IsNumber(core[1]) || !IsNumber(core[2]) then None
    else if tail.None? then Some(Parts(Value(core[0]), Value(core[1]), Value(core[2]), []))
    else if tail.value == "" || !AllIdentifierChars(tail.value) then None
    else Some(Parts(Value(core[0]), Value(core[1]), Value(core[2]), NormalParts(SplitOn(tail.value, '.'))))
  }

  predicate AllIdentifierChars(s: string) {
    forall i :: 0 <= i < |s| ==> IdentifierChar(s[i])
  }

  /** Parsed numbers are written without leading zeros. */
  ghost predicate Canonical(p: string) {
    IsNumber(p) ==> p == Text.Decimal(Value(p))
  }

  lemma {:induction false} DecimalValue(n: nat)
    ensures IsNumber(Text.Decimal(n)) && Value(Text.Decimal(n)) == n
  {
    var d := Text.Decimal(n);
    forall i | 0 <= i < |d| ensures Digit(d[i]) {
      assert d[i] in d;
    }
    if n >= 10 {
      DecimalValue(n / 10);
      assert d[..|d| - 1] == Text.Decimal(n / 10);
    }
  }

  lemma {:induction false} NormalIsCanonical(s: string)
    ensures Canonical(NormalPart(s))
  {
    if IsNumber(s) {
      DecimalValue(Value(s));
    } else {
      assert IsNumber(Text.Lower(s)) ==> IsNumber(s) by {
        forall i | 0 <= i < |s| ensures Digit(Text.Lower(s)[i]) <==> Digit(s[i]) {
        }
      }
    }
  }

  /** A number keeps its value, and any other identifier its characters, in lower case. */
  lemma {:induction false} NormalPartIs(s: string)
    ensures IsNumber(s) ==> IsNumber(NormalPart(s)) && Value(NormalPart(s)) == Value(s)
    ensures !IsNumber(s) ==> |NormalPart(s)| == |s| && !IsNumber(NormalPart(s)) && NoCapital(NormalPart(s))
    ensures !IsNumber(s) ==> forall i :: 0 <= i < |s| && !('A' <= s[i] <= 'Z') ==> NormalPart(s)[i] == s[i]
    ensures !IsNumber(s) ==> forall i :: 0 <= i < |s| && 'A' <= s[i] <= 'Z' ==> NormalPart(s)[i] as int == s[i] as int + 32
  {
    if IsNumber(s) {
      DecimalValue(Value(s));
    } else {
      assert IsNumber(Text.Lower(s)) ==> IsNumber(s) by {
        forall i | 0 <= i < |s| ensures Digit(Text.Lower(s)[i]) <==> Digit(s[i]) {
        }
      }
    }
  }

  ghost predicate NoCapital(s: string) {
    forall i :: 0 <= i < |s| ==> !('A' <= s[i] <= 'Z')
  }

  ghost predicate WellFormed(v: Parts) {
    forall i :: 0 <= i < |v.prerelease| ==> Canonical(v.prerelease[i])
  }

  lemma {:induction false} ParsedIsWellFormed(version: string)
    ensures Parse(version).Some? ==> WellFormed(Parse(version).value)
  {
    TrimmedIsWellFormed(Text.Trim(version));
  }

  lemma {:induction false} TrimmedIsWellFormed(s: string)
    ensures ParseTrimmed(s).Some? ==> WellFormed(ParseTrimmed(s).value)
  {
    var core, tail := ReadParts(s);
    PartsAreWellFormed(core, tail);
  }

  lemma {:induction false} ReadParts(s: string) returns (core: seq<string>, tail: Option<string>)
    ensures ParseTrimmed(s) == ParseParts(core, tail)
  {
    var dash := DashAt(s);
    core := SplitOn(if dash == |s| then s else s[..dash], '.');
    tail := if dash == |s| then None else Some(s[dash + 1..]);
  }

  lemma {:induction false} PartsAreWellFormed(core: seq<string>, tail: Option<string>)
    ensures ParseParts(core, tail).Some? ==> WellFormed(ParseParts(core, tail).value)
  {
    if ParseParts(core, tail).Some? && tail.Some? {
      forall i | 0 <= i < |ParseParts(core, tail).value.prerelease| ensures Canonical(ParseParts(core, tail).value.prerelease[i]) {
        NormalIsCanonical(SplitOn(tail.value, '.')[i]);
      }
    }
  }

  // ---------------------------------------------------------------- comparison

  function Sign(a: int, b: int): int {
    if a < b then -1 else if a > b then 1 else 0
  }

  /** a < b, a > b on strings */
  function CompareText(a: string, b: string): int {
    if a == "" && b == "" then 0
    else if a == "" then -1
    else if b == "" then 1
    else if a[0] != b[0] then Sign(a[0] as int, b[0] as int)
    else CompareText(a[1..], b[1..])
  }

  function ComparePart(a: string, b: string): int {
    if IsNumber(a) && IsNumber(b) then Sign(Value(a), Value(b))
    else if IsNumber(a) then -1
    else if IsNumber(b) then 1
    else CompareText(a, b)
  }

  /** Identifier by identifier; a list that runs out first is lower. */
  function CompareLists(a: seq<string>, b: seq<string>): int {
    if a == [] && b == [] then 0
    else if a == [] then -1
    else if b == [] then 1
    else
      var c := ComparePart(a[0], b[0]);
      if c != 0 then c else CompareLists(a[1..], b[1..])
  }

  function Compare(a: Parts, b: Parts): int {
    if a.major != b.major then Sign(a.major, b.major)
    else if a.minor != b.minor then Sign(a.minor, b.minor)
    else if a.patch != b.patch then Sign(a.patch, b.patch)
    else if a.prerelease == [] && b.prerelease == [] then 0
    else if a.prerelease == [] then 1
    else if b.prerelease == [] then -1
    else CompareLists(a.prerelease, b.prerelease)
  }

  method CompareVersions(a: string, b: string) returns (r: Option<int>)
    ensures r == if Parse(a).Some? && Parse(b).Some? then Some(Compare(Parse(a).value, Parse(b).value)) else None
  {
    var pa, pb := Parse(a), Parse(b);
    if pa.None? || pb.None? {
      return None;
    }
    var va, vb := pa.value, pb.value;
    if va.major != vb.major { return Some(if va.major < vb.major then -1 else 1); }
    if va.minor != vb.minor { return Some(if va.minor < vb.minor then -1 else 1); }
    if va.patch != vb.patch { return Some(if va.patch < vb.patch then -1 else 1); }
    if va.prerelease == [] && vb.prerelease == [] { return Some(0); }
    if va.prerelease == [] { return Some(1); }
    if vb.prerelease == [] { return Some(-1); }
    var c := ScanParts(va.prerelease, vb.prerelease);
    r := Some(c);
  }

  /** The indexed loop over both lists. */
  method ScanParts(a: seq<string>, b: seq<string>) returns (r: int)
    ensures r == CompareLists(a, b)
  {
    var length := if |a| > |b| then |a| else |b|;
    var i := 0;
    while i < length
      invariant 0 <= i <= |a| && i <= |b|
      invariant CompareLists(a[i..], b[i..]) == CompareLists(a, b)
    {
      if i >= |a| { return -1; }
      if i >= |b| { return 1; }
      assert a[i..][1..] == a[i + 1..] && b[i..][1..] == b[i + 1..];
      var c := ComparePart(a[i], b[i]);
      if c != 0 { return c; }
      i := i + 1;
    }
    r := 0;
  }

  // ---------------------------------------------------------------- a total order

  lemma {:induction false} TextOrder(a: string, b: string, c: string)
    ensures CompareText(a, b) == -CompareText(b, a)
    ensures CompareText(a, b) == 0 <==> a == b
    ensures CompareText(a, b) <= 0 && CompareText(b, c) <= 0 ==> CompareText(a, c) <= 0
  {
    if a != "" && b != "" && a[0] == b[0] {
      TextOrder(a[1..], b[1..], if c == "" then "" else c[1..]);
      assert a == [a[0]] + a[1..] && b == [b[0]] + b[1..];
    }
  }

  lemma {:induction false} PartOrder(a: string, b: string, c: string)
    requires Canonical(a) && Canonical(b) && Canonical(c)
    ensures ComparePart(a, b) == -ComparePart(b, a)
    ensures ComparePart(a, b) == 0 <==> a == b
    ensures ComparePart(a, b) <= 0 && ComparePart(b, c) <= 0 ==> ComparePart(a, c) <= 0
  {
    TextOrder(a, b, c);
  }

  ghost predicate AllCanonical(s: seq<string>) {
    forall i :: 0 <= i < |s| ==> Canonical(s[i])
  }

  lemma {:induction false} ListOrder(a: seq<string>, b: seq<string>, c: seq<string>)
    requires AllCanonical(a) && AllCanonical(b) && AllCanonical(c)
    ensures CompareLists(a, b) == -CompareLists(b, a)
    ensures CompareLists(a, b) == 0 <==> a == b
    ensures CompareLists(a, b) <= 0 && CompareLists(b, c) <= 0 ==> CompareLists(a, c) <= 0
  {
    if a != [] && b != [] {
      PartOrder(a[0], b[0], if c == [] then b[0] else c[0]);
      PartOrder(b[0], a[0], b[0]);
      if c != [] {
        PartOrder(b[0], c[0], a[0]);
        PartOrder(a[0], c[0], b[0]);
        PartOrder(c[0], a[0], b[0]);
      }
      ListOrder(a[1..], b[1..], if c == [] then [] else c[1..]);
      assert a == [a[0]] + a[1..] && b == [b[0]] + b[1..];
    }
  }

  /** Precedence is a total order on parsed versions: antisymmetric in sign, transitive, and zero
      exactly when the parsed parts are equal. */
  lemma {:induction false} VersionOrder(a: Parts, b: Parts, c: Parts)
    requires WellFormed(a) && WellFormed(b) && WellFormed(c)
    ensures Compare(a, b) == -Compare(b, a)
    ensures Compare(a, b) == 0 <==> a == b
    ensures Compare(a, b) <= 0 && Compare(b, c) <= 0 ==> Compare(a, c) <= 0
  {
    ListOrder(a.prerelease, b.prerelease, c.prerelease);
  }

  // ---------------------------------------------------------------- precedence, said without computing it

  /** a and b first differ at place j, where a ends or has the smaller element. */
  ghost predicate FirstAt<T>(a: seq<T>, b: seq<T>, j: nat, smaller: (T, T) -> bool) {
    j < |b| && j <= |a| && a[..j] == b[..j] && (j == |a| || smaller(a[j], b[j]))
  }

  /** a comes before b word by word or letter by letter. */
  ghost predicate Lexicographic<T>(a: seq<T>, b: seq<T>, smaller: (T, T) -> bool) {
    exists j: nat :: FirstAt(a, b, j, smaller)
  }

  predicate SmallerChar(c: char, d: char) {
    c < d
  }

  /** Identifiers of digits by value and below all others; the others as texts. */
  ghost predicate SmallerPart(a: string, b: string) {
    if IsNumber(a) then !IsNumber(b) || Value(a) < Value(b)
    else !IsNumber(b) && Lexicographic(a, b, SmallerChar)
  }

  /** Section 11 of Semantic Versioning 2.0.0. */
  ghost predicate Precedes(a: Parts, b: Parts) {
    || a.major < b.major
    || (a.major == b.major && a.minor < b.minor)
    || (a.major == b.major && a.minor == b.minor && a.patch < b.patch)
    || (a.major == b.major && a.minor == b.minor && a.patch == b.patch
        && a.prerelease != [] && (b.prerelease == [] || Lexicographic(a.prerelease, b.prerelease, (x, y) => SmallerPart(x, y))))
  }

  lemma {:induction false} LexicographicStep<T>(a: seq<T>, b: seq<T>, smaller: (T, T) -> bool)
    requires forall x :: !smaller(x, x)
    ensures Lexicographic(a, b, smaller)
            <==> b != [] && (a == [] || smaller(a[0], b[0]) || (a[0] == b[0] && Lexicographic(a[1..], b[1..], smaller)))
  {
    if Lexicographic(a, b, smaller) {
      var j: nat :| FirstAt(a, b, j, smaller);
      if j > 0 {
        assert a[0] == a[..j][0] == b[..j][0] == b[0];
        assert a[1..][..j - 1] == a[..j][1..] && b[1..][..j - 1] == b[..j][1..];
        assert FirstAt(a[1..], b[1..], j - 1, smaller);
      }
    }
    if b != [] && (a == [] || smaller(a[0], b[0])) {
      assert FirstAt(a, b, 0, smaller);
    } else if a != [] && b != [] && a[0] == b[0] && Lexicographic(a[1..], b[1..], smaller) {
      var j: nat :| FirstAt(a[1..], b[1..], j, smaller);
      assert a[..j + 1] == [a[0]] + a[1..][..j] && b[..j + 1] == [b[0]] + b[1..][..j];
      assert FirstAt(a, b, j + 1, smaller);
    }
  }

  lemma {:induction false} TextIsLexicographic(a: string, b: string)
    ensures CompareText(a, b) < 0 <==> Lexicographic(a, b, SmallerChar)
  {
    LexicographicStep(a, b, SmallerChar);
    if a != "" && b != "" {
      TextIsLexicographic(a[1..], b[1..]);
    }
  }

  lemma {:induction false} PartIsSmaller(a: string, b: string)
    ensures ComparePart(a, b) < 0 <==> SmallerPart(a, b)
  {
    TextIsLexicographic(a, b);
  }

  lemma {:induction false} ListIsLexicographic(a: seq<string>, b: seq<string>, smaller: (string, string) -> bool)
    requires AllCanonical(a) && AllCanonical(b)
    requires forall x, y :: smaller(x, y) <==> ComparePart(x, y) < 0
    ensures CompareLists(a, b) < 0 <==> Lexicographic(a, b, smaller)
  {
    forall x ensures !smaller(x, x) {
      TextOrder(x, x, x);
    }
    LexicographicStep(a, b, smaller);
    if a != [] && b != [] {
      PartOrder(a[0], b[0], b[0]);
      ListIsLexicographic(a[1..], b[1..], smaller);
    }
  }

  /** The comparison is negative exactly for versions in the order of precedence, which is defined
      here by the first place where they differ. */
  lemma {:induction false} CompareIsPrecedence(a: Parts, b: Parts)
    requires WellFormed(a) && WellFormed(b)
    ensures Compare(a, b) < 0 <==> Precedes(a, b)
  {
    ghost var smaller := (x, y) => SmallerPart(x, y);
    forall x, y ensures smaller(x, y) <==> ComparePart(x, y) < 0 {
      PartIsSmaller(x, y);
    }
    ListIsLexicographic(a.prerelease, b.prerelease, smaller);
  }

  /** A prerelease comes before its release, and before every longer list that starts with it. */
  lemma {:induction false} PrereleaseIsLower(v: Parts, more: seq<string>)
    requires WellFormed(v) && v.prerelease != []
    ensures Compare(v, v.(prerelease := [])) < 0
    ensures more != [] ==> Compare(v, v.(prerelease := v.prerelease + more)) < 0
  {
    if more != [] {
      PrefixIsLower(v.prerelease, more);
    }
  }

  lemma {:induction false} PrefixIsLower(s: seq<string>, more: seq<string>)
    requires AllCanonical(s) && more != []
    ensures CompareLists(s, s + more) < 0
  {
    if s != [] {
      PartOrder(s[0], s[0], s[0]);
      assert (s + more)[1..] == s[1..] + more;
      PrefixIsLower(s[1..], more);
    }
  }

  // ---------------------------------------------------------------- which texts are versions

  /** a.b.c, and behind a dash the tail, if there is one. */
  function Spelled(a: string, b: string, c: string, tail: Option<string>): string {
    Text.Join('.', [a, b, c]) + if tail.None? then "" else ['-'] + tail.value
  }

  /** Three numbers, and a tail of identifier characters if there is one. */
  predicate Spellable(a: string, b: string, c: string, tail: Option<string>) {
    IsNumber(a) && IsNumber(b) && IsNumber(c) && (tail.Some? ==> tail.value != "" && AllIdentifierChars(tail.value))
  }

  lemma {:induction false} SplitPart(p: string, separator: char, rest: string)
    requires separator !in p
    ensures SplitOn(p, separator) == [p]
    ensures SplitOn(p + ([separator] + rest), separator) == [p] + SplitOn(rest, separator)
  {
    var s := p + ([separator] + rest);
    if p == "" {
      assert s == [separator] + rest && s[1..] == rest;
      assert [""] + SplitOn(rest, separator) == [p] + SplitOn(rest, separator);
    } else {
      assert p[0] in p;
      SplitPart(p[1..], separator, rest);
      assert s[1..] == p[1..] + ([separator] + rest);
      assert p == [p[0]] + p[1..];
    }
  }

  lemma {:induction false} SplitJoin(parts: seq<string>, separator: char)
    requires parts != [] && forall i :: 0 <= i < |parts| ==> separator !in parts[i]
    ensures SplitOn(Text.Join(separator, parts), separator) == parts
  {
    if |parts| == 1 {
      SplitPart(parts[0], separator, "");
    } else {
      SplitJoin(parts[1..], separator);
      SplitPart(parts[0], separator, Text.Join(separator, parts[1..]));
      assert parts[0] + [separator] + Text.Join(separator, parts[1..]) == parts[0] + ([separator] + Text.Join(separator, parts[1..]));
      assert parts == [parts[0]] + parts[1..];
    }
  }

  lemma {:induction false} JoinSplit(s: string, separator: char)
    ensures Text.Join(separator, SplitOn(s, separator)) == s
  {
    if s != "" {
      JoinSplit(s[1..], separator);
      var tail := SplitOn(s[1..], separator);
      if s[0] == separator {
        assert ([""] + tail)[1..] == tail;
      } else {
        JoinHead(s[0], tail, separator);
      }
    }
  }

  lemma {:induction false} JoinHead(c: char, parts: seq<string>, separator: char)
    requires parts != []
    ensures Text.Join(separator, [[c] + parts[0]] + parts[1..]) == [c] + Text.Join(separator, parts)
  {
    assert ([[c] + parts[0]] + parts[1..])[1..] == parts[1..];
    if |parts| > 1 {
      assert ([c] + parts[0]) + [separator] + Text.Join(separator, parts[1..])
             == [c] + (parts[0] + [separator] + Text.Join(separator, parts[1..]));
    }
  }

  lemma {:induction false} JoinLacks(parts: seq<string>, separator: char, c: char)
    requires c != separator && forall i :: 0 <= i < |parts| ==> c !in parts[i]
    ensures c !in Text.Join(separator, parts)
  {
    if |parts| > 1 {
      JoinLacks(parts[1..], separator, c);
    }
  }

  lemma {:induction false} JoinHolds(parts: seq<string>)
    requires forall i :: 0 <= i < |parts| ==> AllIdentifierChars(parts[i])
    ensures AllIdentifierChars(Text.Join('.', parts))
  {
    if |parts| > 1 {
      JoinHolds(parts[1..]);
    }
  }

  lemma {:induction false} JoinIsThere(parts: seq<string>)
    requires parts != [] && parts != [""]
    ensures Text.Join('.', parts) != ""
  {
    if |parts| == 1 {
      assert parts == [parts[0]];
    }
  }

  lemma {:induction false} DashBehind(core: string, rest: string)
    requires '-' !in core
    ensures DashAt(core) == |core| && DashAt(core + (['-'] + rest)) == |core|
  {
    if core == "" {
      assert core + (['-'] + rest) == ['-'] + rest;
    } else {
      assert core[0] in core && (core + (['-'] + rest))[1..] == core[1..] + (['-'] + rest);
      DashBehind(core[1..], rest);
    }
  }

  lemma {:induction false} NumberChars(s: string)
    requires IsNumber(s)
    ensures '-' !in s && '.' !in s && AllIdentifierChars(s)
  {
  }

  lemma {:induction false} CoreReads(a: string, b: string, c: string)
    requires IsNumber(a) && IsNumber(b) && IsNumber(c)
    ensures var core := Text.Join('.', [a, b, c]);
            core != "" && '-' !in core && AllIdentifierChars(core) && SplitOn(core, '.') == [a, b, c]
  {
    var parts := [a, b, c];
    NumberChars(a);
    NumberChars(b);
    NumberChars(c);
    SplitJoin(parts, '.');
    JoinLacks(parts, '.', '-');
    JoinHolds(parts);
    JoinIsThere(parts);
  }

  lemma {:induction false} NotTrimmed(s: string)
    requires s != "" && !Text.IsSpace(s[0]) && !Text.IsSpace(s[|s| - 1])
    ensures Text.Trim(s) == s
  {
    assert Text.TrimStart(s) == s;
  }

  lemma {:induction false} TailOf(core: string, tail: string)
    ensures var s := core + (['-'] + tail);
            |s| == |core| + 1 + |tail| && s[..|core|] == core && s[|core| + 1..] == tail
  {
  }

  lemma {:induction false} TidyTail(core: string, tail: string)
    requires core != "" && tail != "" && AllIdentifierChars(core) && AllIdentifierChars(tail)
    ensures var s := core + (['-'] + tail); Text.Trim(s) == s
  {
    var s := core + (['-'] + tail);
    assert s[0] == core[0] && s[|s| - 1] == tail[|tail| - 1];
    NotTrimmed(s);
  }

  lemma {:induction false} ParseTail(s: string, core: string, tail: string)
    requires DashAt(s) == |core| < |s| && s[..|core|] == core && s[|core| + 1..] == tail
    ensures ParseTrimmed(s) == ParseParts(SplitOn(core, '.'), Some(tail))
  {
  }

  /** What a spelled text is read as. */
  lemma {:induction false} SpelledReads(a: string, b: string, c: string, tail: Option<string>)
    requires Spellable(a, b, c, tail)
    ensures ParseTrimmed(Spelled(a, b, c, tail)) == ParseParts([a, b, c], tail)
  {
    var core := Text.Join('.', [a, b, c]);
    CoreReads(a, b, c);
    if tail.None? {
      assert Spelled(a, b, c, tail) == core;
      DashBehind(core, "");
    } else {
      DashBehind(core, tail.value);
      TailOf(core, tail.value);
      ParseTail(core + (['-'] + tail.value), core, tail.value);
    }
  }

  lemma {:induction false} SpelledIsTidy(a: string, b: string, c: string, tail: Option<string>)
    requires Spellable(a, b, c, tail)
    ensures Text.Trim(Spelled(a, b, c, tail)) == Spelled(a, b, c, tail)
  {
    var core := Text.Join('.', [a, b, c]);
    CoreReads(a, b, c);
    if tail.None? {
      assert Spelled(a, b, c, tail) == core;
      NotTrimmed(core);
    } else {
      TidyTail(core, tail.value);
    }
  }

  /** What is read as a version is spelled as one. */
  lemma {:induction false} ReadIsSpelled(s: string) returns (a: string, b: string, c: string, tail: Option<string>)
    requires ParseTrimmed(s).Some?
    ensures Spellable(a, b, c, tail) && s == Spelled(a, b, c, tail) && ParseTrimmed(s) == ParseParts([a, b, c], tail)
  {
    var dash := DashAt(s);
    if dash == |s| {
      tail := None;
      a, b, c := FrontReads(s, tail);
      assert s + "" == s;
    } else {
      tail := Some(s[dash + 1..]);
      a, b, c := FrontReads(s[..dash], tail);
      DashIsDash(s);
    }
  }

  lemma {:induction false} FrontReads(front: string, tail: Option<string>) returns (a: string, b: string, c: string)
    requires ParseParts(SplitOn(front, '.'), tail).Some?
    ensures Spellable(a, b, c, tail) && SplitOn(front, '.') == [a, b, c] && front == Text.Join('.', [a, b, c])
  {
    var core := SplitOn(front, '.');
    a, b, c := core[0], core[1], core[2];
    JoinSplit(front, '.');
    assert core == [a, b, c];
  }

  lemma {:induction false} DashIsDash(s: string)
    ensures DashAt(s) < |s| ==> s == s[..DashAt(s)] + (['-'] + s[DashAt(s) + 1..])
  {
    if s != "" && s[0] != '-' {
      DashIsDash(s[1..]);
    }
  }

  /** A text is a version exactly when, trimmed, it is three numbers joined by dots, with identifier characters
      behind a dash or nothing; and its parts are those numbers and identifiers. */
  lemma {:induction false} ParsesIff(version: string, v: Parts)
    ensures Parse(version) == Some(v)
            <==> exists a, b, c, tail :: Spellable(a, b, c, tail) && Text.Trim(version) == Spelled(a, b, c, tail)
                                         && v == PartsOf(a, b, c, tail)
  {
    TrimmedParsesIff(Text.Trim(version), v);
  }

  lemma {:induction false} TrimmedParsesIff(s: string, v: Parts)
    ensures ParseTrimmed(s) == Some(v)
            <==> exists a, b, c, tail :: Spellable(a, b, c, tail) && s == Spelled(a, b, c, tail) && v == PartsOf(a, b, c, tail)
  {
    if ParseTrimmed(s) == Some(v) {
      var a, b, c, tail := ReadIsSpelled(s);
      assert v == PartsOf(a, b, c, tail);
    }
    if a, b, c, tail :| Spellable(a, b, c, tail) && s == Spelled(a, b, c, tail) && v == PartsOf(a, b, c, tail) {
      SpelledReads(a, b, c, tail);
    }
  }

  function PartsOf(a: string, b: string, c: string, tail: Option<string>): Parts
    requires Spellable(a, b, c, tail)
  {
    Parts(Value(a), Value(b), Value(c), if tail.None? then [] else NormalParts(SplitOn(tail.value, '.')))
  }

  // ---------------------------------------------------------------- parsing undoes printing

  /** Core numbers, and identifiers behind a dash. */
  function Print(v: Parts): string {
    Spelled(Text.Decimal(v.major), Text.Decimal(v.minor), Text.Decimal(v.patch),
            if v.prerelease == [] then None else Some(Text.Join('.', v.prerelease)))
  }

  /** An identifier as parsing leaves it: of identifier characters, numbers without leading zeros, lower-case. */
  predicate Identifier(p: string) {
    AllIdentifierChars(p) && '.' !in p && NormalPart(p) == p
  }

  /** The identifiers can stand behind a dash. */
  ghost predicate Printable(v: Parts) {
    v.prerelease != [""] && forall i :: 0 <= i < |v.prerelease| ==> Identifier(v.prerelease[i])
  }

  lemma {:induction false} NormalAlready(parts: seq<string>)
    requires forall i :: 0 <= i < |parts| ==> NormalPart(parts[i]) == parts[i]
    ensures NormalParts(parts) == parts
  {
  }

  /** Parsing a printed version gives its parts back. */
  lemma {:induction false} ParsePrinted(v: Parts)
    requires Printable(v)
    ensures Parse(Print(v)) == Some(v)
  {
    DecimalValue(v.major);
    DecimalValue(v.minor);
    DecimalValue(v.patch);
    var tail := if v.prerelease == [] then None else Some(Text.Join('.', v.prerelease));
    if v.prerelease != [] {
      JoinHolds(v.prerelease);
      JoinIsThere(v.prerelease);
      SplitJoin(v.prerelease, '.');
      NormalAlready(v.prerelease);
    }
    SpelledReads(Text.Decimal(v.major), Text.Decimal(v.minor), Text.Decimal(v.patch), tail);
    SpelledIsTidy(Text.Decimal(v.major), Text.Decimal(v.minor), Text.Decimal(v.patch), tail);
  }
}
