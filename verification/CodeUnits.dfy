/** JavaScript strings as what they are, sequences of UTF-16 code units (lone surrogates
    included), and the order Array.prototype.sort() puts them in. */
module CodeUnits {
  import Sorting

  type unit = x: int | 0 <= x < 0x1_0000 witness 0
  type Text = seq<unit>

  /** The code units of one character: itself, or a surrogate pair. */
  function Units(c: char): Text {
    var n := c as int;
    if n < 0x1_0000 then [n] else [0xD800 + (n - 0x1_0000) / 0x400, 0xDC00 + (n - 0x1_0000) % 0x400]
  }

  function Utf16(s: string): Text {
    if s == "" then [] else Units(s[0]) + Utf16(s[1..])
  }

  lemma {:induction false} UnitsPrefix(c: char, d: char, p: Text, q: Text)
    requires Units(c) + p == Units(d) + q
    ensures c == d && p == q
  {
    var x, y := Units(c) + p, Units(d) + q;
    assert x[0] == Units(c)[0] && y[0] == Units(d)[0];
    assert |Units(c)| == |Units(d)|;
    assert x[..|Units(c)|] == Units(c) && y[..|Units(d)|] == Units(d);
    assert x[|Units(c)|..] == p && y[|Units(d)|..] == q;
    if |Units(c)| == 2 {
      assert Units(c)[1] == Units(d)[1];
    }
  }

  /** Different strings have different code units. */
  lemma {:induction false} Utf16IsInjective(s: string, t: string)
    requires Utf16(s) == Utf16(t)
    ensures s == t
  {
    if s != "" && t != "" {
      UnitsPrefix(s[0], t[0], Utf16(s[1..]), Utf16(t[1..]));
      Utf16IsInjective(s[1..], t[1..]);
      assert s == [s[0]] + s[1..] && t == [t[0]] + t[1..];
    }
  }

  /** A character below 0x1_0000 is its own unit; any other is two surrogates whose low ten bits are its digits
      above 0x1_0000. */
  lemma {:induction false} UnitsSpell(c: char)
    ensures c as int < 0x1_0000 ==> Units(c) == [c as int]
    ensures c as int >= 0x1_0000 ==>
              && |Units(c)| == 2 && 0xD800 <= Units(c)[0] < 0xDC00 && 0xDC00 <= Units(c)[1] < 0xE000
              && (Units(c)[0] as int - 0xD800) * 0x400 + (Units(c)[1] as int - 0xDC00) + 0x1_0000 == c as int
  {
  }

  /** Lexicographic order on code units. */
  predicate TextLe(a: Text, b: Text) {
    if a == [] then true
    else if b == [] then false
    else a[0] < b[0] || (a[0] == b[0] && TextLe(a[1..], b[1..]))
  }

  /** The smaller unit at the first place where both differ. */
  ghost predicate SmallerAt(a: Text, b: Text, i: nat) {
    i < |a| && i < |b| && a[..i] == b[..i] && a[i] < b[i]
  }

  /** a is at most b if and only if b starts with a, or the first different unit is smaller in a. */
  lemma {:induction false} TextLeIff(a: Text, b: Text)
    ensures TextLe(a, b) <==> a <= b || exists i: nat :: SmallerAt(a, b, i)
  {
    if a != [] && b != [] {
      TextLeIff(a[1..], b[1..]);
      if a[0] == b[0] {
        StartsIff(a, b);
        DiffersLater(a, b);
      } else {
        assert a[..0] == b[..0];
        assert a[0] < b[0] ==> SmallerAt(a, b, 0);
        OnlyAtStart(a, b);
      }
    }
  }

  lemma {:induction false} StartsIff(a: Text, b: Text)
    requires a != [] && b != [] && a[0] == b[0]
    ensures a <= b <==> a[1..] <= b[1..]
  {
    assert a == [a[0]] + a[1..] && b == [b[0]] + b[1..];
  }

  lemma {:induction false} DiffersLater(a: Text, b: Text)
    requires a != [] && b != [] && a[0] == b[0]
    ensures (exists i: nat :: SmallerAt(a, b, i)) <==> exists i: nat :: SmallerAt(a[1..], b[1..], i)
  {
    if i: nat :| SmallerAt(a, b, i) {
      assert a[1..][..i - 1] == a[..i][1..] && b[1..][..i - 1] == b[..i][1..];
      assert SmallerAt(a[1..], b[1..], i - 1);
    }
    if j: nat :| SmallerAt(a[1..], b[1..], j) {
      assert a[..j + 1] == [a[0]] + a[1..][..j] && b[..j + 1] == [b[0]] + b[1..][..j];
      assert SmallerAt(a, b, j + 1);
    }
  }

  lemma {:induction false} SameStart(a: Text, b: Text, i: nat)
    requires i > 0 && SmallerAt(a, b, i)
    ensures a[0] == b[0]
  {
    assert a[0] == a[..i][0] && b[0] == b[..i][0];
  }

  lemma {:induction false} OnlyAtStart(a: Text, b: Text)
    requires a != [] && b != [] && a[0] != b[0]
    ensures !(a <= b) && forall i: nat :: SmallerAt(a, b, i) ==> a[0] < b[0]
  {
    forall i: nat | SmallerAt(a, b, i) ensures a[0] < b[0] {
      if i > 0 {
        SameStart(a, b, i);
      }
    }
  }

  lemma {:induction false} TextLeTotal(a: Text, b: Text)
    ensures TextLe(a, b) || TextLe(b, a)
  {
    if a != [] && b != [] {
      TextLeTotal(a[1..], b[1..]);
    }
  }

  lemma {:induction false} TextLeAntisymmetric(a: Text, b: Text)
    requires TextLe(a, b) && TextLe(b, a)
    ensures a == b
  {
    if a != [] && b != [] {
      TextLeAntisymmetric(a[1..], b[1..]);
      assert a == [a[0]] + a[1..] && b == [b[0]] + b[1..];
    }
  }

  lemma {:induction false} TextLeTransitive(a: Text, b: Text, c: Text)
    requires TextLe(a, b) && TextLe(b, c)
    ensures TextLe(a, c)
  {
    if a != [] && a[0] == b[0] == c[0] {
      TextLeTransitive(a[1..], b[1..], c[1..]);
    }
  }

  lemma {:induction false} TextLeIsTotalOrder()
    ensures Sorting.TotalOrder(TextLe)
  {
    forall a, b ensures TextLe(a, b) || TextLe(b, a) {
      TextLeTotal(a, b);
    }
    forall a, b, c | TextLe(a, b) && TextLe(b, c) ensures TextLe(a, c) {
      TextLeTransitive(a, b, c);
    }
    forall a, b | TextLe(a, b) && TextLe(b, a) ensures a == b {
      TextLeAntisymmetric(a, b);
    }
  }
}
