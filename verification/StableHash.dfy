/** stableHash (shared/p2p-workflow-policy.ts:59-67): FNV-1a over UTF-16 code units with a 64-bit
    state, printed as 16 hexadecimal digits. */
module StableHash {
  import opened CodeUnits

  const MODULUS: int := 0x1_0000_0000_0000_0000
  const OFFSET: int := 0xcbf2_9ce4_8422_2325
  const PRIME: int := 0x100_0000_01b3
  /** PRIME * INVERSE leaves remainder 1 modulo 2^64. */
  const INVERSE: int := 0xce96_5057_aff6_957b

  type state = x: int | 0 <= x < 0x1_0000_0000_0000_0000 witness 0

  /** Bitwise exclusive or. */
  function Xor(a: nat, b: nat): nat {
    if a == 0 && b == 0 then 0 else (if a % 2 == b % 2 then 0 else 1) + 2 * Xor(a / 2, b / 2)
  }

  function Pow2(n: nat): nat {
    if n == 0 then 1 else 2 * Pow2(n - 1)
  }

  lemma {:induction false} XorBelow(a: nat, b: nat, n: nat)
    requires a < Pow2(n) && b < Pow2(n)
    ensures Xor(a, b) < Pow2(n)
    decreases n
  {
    if n > 0 && !(a == 0 && b == 0) {
      XorBelow(a / 2, b / 2, n - 1);
    }
  }

  lemma {:induction false} XorUndoes(a: nat, b: nat)
    ensures Xor(Xor(a, b), b) == a
    decreases a + b
  {
    if !(a == 0 && b == 0) {
      XorUndoes(a / 2, b / 2);
      var x := Xor(a, b);
      assert x / 2 == Xor(a / 2, b / 2) && x % 2 == (if a % 2 == b % 2 then 0 else 1);
    }
  }

  lemma {:induction false} XorSymmetric(a: nat, b: nat)
    ensures Xor(a, b) == Xor(b, a)
    decreases a + b
  {
    if !(a == 0 && b == 0) {
      XorSymmetric(a / 2, b / 2);
    }
  }

  lemma {:induction false} SixtyFourBits()
    ensures Pow2(64) == MODULUS
  {
    assert Pow2(8) == 0x100;
    Pow2Adds(8, 8);
    Pow2Adds(16, 16);
    Pow2Adds(32, 32);
  }

  lemma {:induction false} Pow2Adds(a: nat, b: nat)
    ensures Pow2(a + b) == Pow2(a) * Pow2(b)
  {
    if a > 0 {
      Pow2Adds(a - 1, b);
      Doubled(Pow2(a - 1), Pow2(b));
    }
  }

  lemma {:induction false} Doubled(x: int, y: int)
    ensures 2 * x * y == 2 * (x * y)
  {
  }

  function Mix(h: state, u: unit): (r: state) {
    SixtyFourBits();
    XorBelow(h, u, 64);
    Xor(h, u)
  }

  /** hash ^= code unit; hash = BigInt.asUintN(64, hash * prime) */
  function Step(h: state, u: unit): (r: state) {
    Mix(h, u) * PRIME % MODULUS
  }

  function Unstep(h: state, u: unit): (r: state) {
    Mix(h * INVERSE % MODULUS, u)
  }

  /** Dividing by the modulus leaves one remainder. */
  lemma {:induction false} Remainder(value: int, x: state, multiple: int)
    requires value == x + MODULUS * multiple
    ensures value % MODULUS == x
  {
  }

  lemma {:induction false} Cancels(x: state)
    ensures x * PRIME % MODULUS * INVERSE % MODULUS == x
    ensures x * INVERSE % MODULUS * PRIME % MODULUS == x
  {
    assert PRIME * INVERSE == 1 + MODULUS * 887285111055;
    var q := x * PRIME / MODULUS;
    assert x * PRIME % MODULUS * INVERSE == x + MODULUS * (x * 887285111055 - q * INVERSE);
    Remainder(x * PRIME % MODULUS * INVERSE, x, x * 887285111055 - q * INVERSE);
    var p := x * INVERSE / MODULUS;
    assert x * INVERSE % MODULUS * PRIME == x + MODULUS * (x * 887285111055 - p * PRIME);
    Remainder(x * INVERSE % MODULUS * PRIME, x, x * 887285111055 - p * PRIME);
  }

  /** For every code unit the step is a bijection of the 2^64 states. */
  lemma {:induction false} StepIsBijective(h: state, u: unit)
    ensures Unstep(Step(h, u), u) == h && Step(Unstep(h, u), u) == h
  {
    Cancels(Mix(h, u));
    XorUndoes(h, u);
    var x: state := h * INVERSE % MODULUS;
    XorUndoes(x, u);
    Cancels(h);
  }

  lemma {:induction false} StepIsInjective(g: state, h: state, u: unit)
    ensures Step(g, u) == Step(h, u) <==> g == h
  {
    StepIsBijective(g, u);
    StepIsBijective(h, u);
  }

  /** The state after hashing s from state h. */
  function Run(h: state, s: Text): state
    decreases s
  {
    if s == [] then h else Run(Step(h, s[0]), s[1..])
  }

  lemma {:induction false} RunConcat(h: state, s: Text, t: Text)
    ensures Run(h, s + t) == Run(Run(h, s), t)
    decreases s
  {
    if s == [] {
      assert s + t == t;
    } else {
      assert (s + t)[1..] == s[1..] + t;
      RunConcat(Step(h, s[0]), s[1..], t);
    }
  }

  lemma {:induction false} RunIsInjective(g: state, h: state, s: Text)
    ensures Run(g, s) == Run(h, s) <==> g == h
    decreases s
  {
    if s != [] {
      StepIsInjective(g, h, s[0]);
      RunIsInjective(Step(g, s[0]), Step(h, s[0]), s[1..]);
    }
  }

  function FinalState(s: Text): state {
    Run(OFFSET, s)
  }

  // ---------------------------------------------------------------- the printed digest

  function HexDigit(n: int): char
    requires 0 <= n < 16
  {
    "0123456789abcdef"[n]
  }

  /** hash.toString(16) */
  function Hex(n: nat): (r: string)
    ensures |r| > 0
  {
    if n < 16 then [HexDigit(n)] else Hex(n / 16) + [HexDigit(n % 16)]
  }

  /** padStart(16, '0') */
  function PadStart(s: string): (r: string)
    decreases 16 - |s|
  {
    if |s| >= 16 then s else PadStart("0" + s)
  }

  /** The n-digit form, leading zeros included. */
  function Digits(h: nat, n: nat): (r: string)
    ensures |r| == n
  {
    if n == 0 then "" else Digits(h / 16, n - 1) + [HexDigit(h % 16)]
  }

  lemma {:induction false} DigitsOfZero(n: nat)
    ensures Digits(0, n + 1) == "0" + Digits(0, n)
  {
    if n > 0 {
      DigitsOfZero(n - 1);
      assert "0" + Digits(0, n - 1) + ['0'] == "0" + (Digits(0, n - 1) + ['0']);
    }
  }

  lemma {:induction false} DigitsPad(h: nat, n: nat)
    requires h < Pow2(4 * n)
    ensures Digits(h, n + 1) == "0" + Digits(h, n)
  {
    if n == 0 {
      DigitsOfZero(0);
    } else {
      Pow2Adds(4, 4 * (n - 1));
      assert Pow2(4) == 16;
      DigitsPad(h / 16, n - 1);
      assert "0" + Digits(h / 16, n - 1) + [HexDigit(h % 16)] == "0" + (Digits(h / 16, n - 1) + [HexDigit(h % 16)]);
    }
  }

  lemma {:induction false} HexIsDigits(h: nat)
    ensures Hex(h) == Digits(h, |Hex(h)|)
  {
    if h < 16 {
      assert Digits(h, 1) == Digits(h / 16, 0) + [HexDigit(h % 16)];
    } else {
      HexIsDigits(h / 16);
    }
  }

  lemma {:induction false} HexBound(h: nat)
    ensures h < Pow2(4 * |Hex(h)|)
  {
    assert Pow2(4) == 16;
    if h >= 16 {
      HexBound(h / 16);
      Pow2Adds(4, 4 * |Hex(h / 16)|);
    }
  }

  lemma {:induction false} HexLength(h: nat, n: nat)
    requires h < Pow2(4 * n) && n > 0
    ensures |Hex(h)| <= n
  {
    assert Pow2(4) == 16;
    if h >= 16 && n > 1 {
      Pow2Adds(4, 4 * (n - 1));
      HexLength(h / 16, n - 1);
    }
  }

  lemma {:induction false} PaddedIsDigits(h: nat, n: nat)
    requires n <= 16 && h < Pow2(4 * n)
    ensures PadStart(Digits(h, n)) == Digits(h, 16)
    decreases 16 - n
  {
    if n < 16 {
      DigitsPad(h, n);
      Pow2Adds(4 * n, 4);
      assert Pow2(4) == 16;
      PaddedIsDigits(h, n + 1);
    }
  }

  lemma {:induction false} OneDigitLess(h: nat, n: nat)
    requires n > 0 && h < Pow2(4 * n)
    ensures h / 16 < Pow2(4 * (n - 1))
    ensures Digits(h, n)[n - 1] == HexDigit(h % 16) && Digits(h, n)[..n - 1] == Digits(h / 16, n - 1)
  {
    Pow2Adds(4, 4 * (n - 1));
    assert Pow2(4) == 16;
  }

  lemma {:induction false} DigitsInjective(g: nat, h: nat, n: nat)
    requires g < Pow2(4 * n) && h < Pow2(4 * n) && Digits(g, n) == Digits(h, n)
    ensures g == h
  {
    if n > 0 {
      OneDigitLess(g, n);
      OneDigitLess(h, n);
      HexDigitInjective(g % 16, h % 16);
      DigitsInjective(g / 16, h / 16, n - 1);
    }
  }

  lemma {:induction false} HexDigitInjective(a: int, b: int)
    requires 0 <= a < 16 && 0 <= b < 16 && HexDigit(a) == HexDigit(b)
    ensures a == b
  {
  }

  function Digest(s: Text): string {
    "fnv1a64:" + PadStart(Hex(FinalState(s)))
  }

  /** The digest is the tag and the sixteen digits of the final state. */
  lemma {:induction false} DigestIsSixteenDigits(s: Text)
    ensures Digest(s) == "fnv1a64:" + Digits(FinalState(s), 16)
  {
    SixtyFourBits();
    var h := FinalState(s);
    HexIsDigits(h);
    HexBound(h);
    HexLength(h, 16);
    PaddedIsDigits(h, |Hex(h)|);
  }

  /** Equal digests are equal states. */
  lemma {:induction false} DigestsAreStates(s: Text, t: Text)
    ensures Digest(s) == Digest(t) <==> FinalState(s) == FinalState(t)
  {
    DigestIsSixteenDigits(s);
    DigestIsSixteenDigits(t);
    if Digest(s) == Digest(t) {
      var a, b := Digits(FinalState(s), 16), Digits(FinalState(t), 16);
      assert Digest(s)[8..] == a && Digest(t)[8..] == b;
      SixtyFourBits();
      DigitsInjective(FinalState(s), FinalState(t), 16);
    }
  }

  /** Appending the same suffix neither creates nor removes a collision. */
  lemma {:induction false} SuffixesKeepCollisions(s: Text, t: Text, suffix: Text)
    ensures Digest(s + suffix) == Digest(t + suffix) <==> Digest(s) == Digest(t)
  {
    DigestsAreStates(s, t);
    DigestsAreStates(s + suffix, t + suffix);
    RunConcat(OFFSET, s, suffix);
    RunConcat(OFFSET, t, suffix);
    RunIsInjective(FinalState(s), FinalState(t), suffix);
  }

  /** Two texts that differ in exactly one code unit never collide. */
  lemma {:induction false} OneUnitChangesTheDigest(prefix: Text, a: unit, b: unit, suffix: Text)
    requires a != b
    ensures Digest(prefix + [a] + suffix) != Digest(prefix + [b] + suffix)
  {
    SuffixesKeepCollisions(prefix + [a], prefix + [b], suffix);
    DigestsAreStates(prefix + [a], prefix + [b]);
    LastUnitDecides(prefix, a, b);
  }

  lemma {:induction false} LastUnitDecides(prefix: Text, a: unit, b: unit)
    requires a != b
    ensures FinalState(prefix + [a]) != FinalState(prefix + [b])
  {
    var h := FinalState(prefix);
    RunConcat(OFFSET, prefix, [a]);
    RunConcat(OFFSET, prefix, [b]);
    RunOne(h, a);
    RunOne(h, b);
    if Step(h, a) == Step(h, b) {
      StepSeparatesUnits(h, a, b);
    }
  }

  lemma {:induction false} RunOne(h: state, u: unit)
    ensures Run(h, [u]) == Step(h, u)
  {
    assert [u][1..] == [];
  }

  lemma {:induction false} StepSeparatesUnits(h: state, a: unit, b: unit)
    requires Step(h, a) == Step(h, b)
    ensures a == b
  {
    Cancels(Mix(h, a));
    Cancels(Mix(h, b));
    XorSymmetric(h, a);
    XorSymmetric(h, b);
    XorUndoes(a, h);
    XorUndoes(b, h);
  }

  /** The loop of stableHash. */
  method StableHash(input: Text) returns (digest: string)
    ensures digest == Digest(input)
  {
    var hash: state := OFFSET;
    var index := 0;
    while index < |input|
      invariant 0 <= index <= |input|
      invariant Run(hash, input[index..]) == FinalState(input)
    {
      assert input[index..][1..] == input[index + 1..];
      hash := Step(hash, input[index]);
      index := index + 1;
    }
    digest := "fnv1a64:" + PadStart(Hex(hash));
  }

  // ---------------------------------------------------------------- the digest as a number

  function DigitValue(c: char): nat {
    if '0' <= c <= '9' then c as nat - '0' as nat else if 'a' <= c <= 'f' then c as nat - 'a' as nat + 10 else 0
  }

  /** The number that a text of hexadecimal digits denotes. */
  function ReadHex(t: string): nat {
    if t == "" then 0 else 16 * ReadHex(t[..|t| - 1]) + DigitValue(t[|t| - 1])
  }

  lemma {:induction false} DigitReads(d: nat)
    requires d < 16
    ensures DigitValue(HexDigit(d)) == d
  {
  }

  lemma {:induction false} DigitsRead(h: nat, n: nat)
    requires h < Pow2(4 * n)
    ensures ReadHex(Digits(h, n)) == h
  {
    if n > 0 {
      OneDigitLess(h, n);
      DigitsRead(h / 16, n - 1);
      DigitReads(h % 16);
      var t := Digits(h, n);
      assert t[..|t| - 1] == Digits(h / 16, n - 1);
    }
  }

  /** The digits of a digest denote the final state. */
  lemma {:induction false} DigestReadsBack(s: Text)
    ensures |Digest(s)| == 24 && Digest(s)[..8] == "fnv1a64:" && ReadHex(Digest(s)[8..]) == FinalState(s)
  {
    SixtyFourBits();
    DigestIsSixteenDigits(s);
    DigitsRead(FinalState(s), 16);
    TagAndDigits("fnv1a64:", Digits(FinalState(s), 16));
  }

  lemma {:induction false} TagAndDigits(tag: string, digits: string)
    ensures (tag + digits)[..|tag|] == tag && (tag + digits)[|tag|..] == digits
  {
  }

  // ---------------------------------------------------------------- published values of FNV-1a

  /** Hashing nothing leaves the offset basis. */
  lemma {:induction false} HashOfNothing(s: Text)
    requires s == []
    ensures FinalState(s) == 0xcbf2_9ce4_8422_2325
  {
  }

  lemma {:induction false} XorNothing(a: nat, b: nat)
    requires b == 0
    ensures Xor(a, b) == a
  {
    if a > 0 {
      XorNothing(a / 2, b);
    }
  }

  /** The bits above those of u stay as they are. */
  lemma {:induction false} XorHigh(m: nat, w: nat, u: nat, k: nat, p: nat)
    requires p == Pow2(k) && w < p && u < p
    ensures Xor(m * p + w, u) == m * p + Xor(w, u)
    decreases k
  {
    if k == 0 {
      XorNothing(m, 0);
      XorNothing(0, 0);
    } else {
      var q := Pow2(k - 1);
      XorHigh(m, w / 2, u / 2, k - 1, q);
      Halves(m, w, p, q);
    }
  }

  lemma {:induction false} Halves(m: nat, w: nat, p: nat, q: nat)
    requires p == 2 * q
    ensures (m * p + w) / 2 == m * q + w / 2 && (m * p + w) % 2 == w % 2 && m * p == 2 * (m * q)
  {
  }

  /** The letter a is code unit 0x61. */
  lemma {:induction false} MixedWithA(h: nat, u: nat)
    requires h == OFFSET && u == 0x61
    ensures Xor(h, u) == 0xcbf2_9ce4_8422_2344
  {
    assert Pow2(7) == 128;
    XorHigh(0x197e539c9084446, 0x25, 0x61, 7, 128);
    assert Xor(0x25, 0x61) == 0x44;
  }

  /** The hash of the text a. */
  lemma {:induction false} HashOfA(s: Text)
    requires |s| == 1 && s[0] == 0x61
    ensures FinalState(s) == 0xaf63_dc4c_8601_ec8c
  {
    RunOne(OFFSET, s[0]);
    assert s == [s[0]];
    StepWithA(OFFSET, s[0]);
  }

  lemma {:induction false} StepWithA(h: state, u: unit)
    requires h == OFFSET && u == 0x61
    ensures Step(h, u) == 0xaf63_dc4c_8601_ec8c
  {
    MixedWithA(h, u);
    Remainder(Mix(h, u) * PRIME, 0xaf63_dc4c_8601_ec8c, 875948729822);
  }
}
