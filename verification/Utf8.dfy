/** UTF-8 (section 3 of RFC 3629) as TextEncoder writes it and TextDecoder reads it.
    A char is a Unicode scalar value, so strings hold no lone surrogates. */
module Utf8 {

  newtype byte = x: int | 0 <= x < 256

  function Width(c: char): (n: nat)
    ensures 1 <= n <= 4
  {
    var u := c as int;
    if u < 0x80 then 1 else if u < 0x800 then 2 else if u < 0x1_0000 then 3 else 4
  }

  /** new TextEncoder().encode(s).byteLength */
  function ByteLength(s: string): (n: nat)
    ensures |s| <= n <= 4 * |s|
  {
    if s == "" then 0 else Width(s[0]) + ByteLength(s[1..])
  }

  lemma {:induction false} ByteLengthConcat(s: string, t: string)
    ensures ByteLength(s + t) == ByteLength(s) + ByteLength(t)
  {
    if s == "" {
      assert s + t == t;
    } else {
      assert (s + t)[1..] == s[1..] + t;
      ByteLengthConcat(s[1..], t);
    }
  }

  function EncodeChar(c: char): (r: seq<byte>)
    ensures |r| == Width(c)
  {
    var u := c as int;
    if u < 0x80 then [u as byte]
    else if u < 0x800 then [(0xC0 + u / 0x40) as byte, (0x80 + u % 0x40) as byte]
    else if u < 0x1_0000 then
      [(0xE0 + u / 0x1000) as byte, (0x80 + u / 0x40 % 0x40) as byte, (0x80 + u % 0x40) as byte]
    else
      [(0xF0 + u / 0x4_0000) as byte, (0x80 + u / 0x1000 % 0x40) as byte,
       (0x80 + u / 0x40 % 0x40) as byte, (0x80 + u % 0x40) as byte]
  }

  /** new TextEncoder().encode(s) */
  function Encode(s: string): (r: seq<byte>)
    ensures |r| == ByteLength(s)
  {
    if s == "" then [] else EncodeChar(s[0]) + Encode(s[1..])
  }

  const REPLACEMENT: char := '\U{FFFD}'

  /** How long a sequence its first byte announces. */
  function Announced(lead: byte): (n: nat)
    ensures 1 <= n <= 4
  {
    if lead < 0xC0 then 1 else if lead < 0xE0 then 2 else if lead < 0xF0 then 3 else 4
  }

  function Tail(b: byte): int {
    b as int % 0x40
  }

  function ScalarOf(u: int): char {
    if 0 <= u < 0xD800 || 0xE000 <= u < 0x11_0000 then u as char else REPLACEMENT
  }

  function DecodeChar(b: seq<byte>): char
    requires b != [] && Announced(b[0]) <= |b|
  {
    var n := Announced(b[0]);
    if n == 1 then ScalarOf(b[0] as int)
    else if n == 2 then ScalarOf((b[0] as int - 0xC0) * 0x40 + Tail(b[1]))
    else if n == 3 then ScalarOf((b[0] as int - 0xE0) * 0x1000 + Tail(b[1]) * 0x40 + Tail(b[2]))
    else ScalarOf((b[0] as int - 0xF0) * 0x4_0000 + Tail(b[1]) * 0x1000 + Tail(b[2]) * 0x40 + Tail(b[3]))
  }

  /** Decoding that never fails, on a prefix of well-formed UTF-8: a sequence cut short at the end
      becomes one replacement character. */
  function DecodeLossy(b: seq<byte>): string
    decreases |b|
  {
    if b == [] then ""
    else if Announced(b[0]) > |b| then [REPLACEMENT]
    else [DecodeChar(b)] + DecodeLossy(b[Announced(b[0])..])
  }

  const BOM: char := '\U{FEFF}'

  /** new TextDecoder('utf-8').decode(b): a leading byte order mark is swallowed. */
  function TextDecode(b: seq<byte>): string {
    if |b| >= 3 && b[0] == 0xEF && b[1] == 0xBB && b[2] == 0xBF then DecodeLossy(b[3..]) else DecodeLossy(b)
  }

  /** How many whole characters of s fit in k bytes. */
  function WholeChars(s: string, k: nat): (j: nat)
    ensures j <= |s|
  {
    if s == "" || Width(s[0]) > k then 0 else 1 + WholeChars(s[1..], k - Width(s[0]))
  }

  lemma {:induction false} DecodeShort(c: char)
    requires c as int < 0x800
    ensures Announced(EncodeChar(c)[0]) == Width(c) && DecodeChar(EncodeChar(c)) == c
  {
  }

  lemma {:induction false} DecodeThree(c: char)
    requires 0x800 <= c as int < 0x1_0000
    ensures Announced(EncodeChar(c)[0]) == Width(c) && DecodeChar(EncodeChar(c)) == c
  {
    Bits3(c as int);
  }

  lemma {:induction false} DecodeFour(c: char)
    requires c as int >= 0x1_0000
    ensures Announced(EncodeChar(c)[0]) == Width(c) && DecodeChar(EncodeChar(c)) == c
  {
    Bits4(c as int);
  }

  lemma {:induction false} DecodeWide(c: char)
    ensures Announced(EncodeChar(c)[0]) == Width(c) && DecodeChar(EncodeChar(c)) == c
  {
    if c as int >= 0x1_0000 {
      DecodeFour(c);
    } else if c as int >= 0x800 {
      DecodeThree(c);
    } else {
      DecodeShort(c);
    }
  }

  lemma {:induction false} Bits3(u: int)
    requires 0 <= u < 0x1_0000
    ensures u == u / 0x1000 * 0x1000 + u / 0x40 % 0x40 * 0x40 + u % 0x40
    ensures (0x80 + u / 0x40 % 0x40) % 0x40 == u / 0x40 % 0x40 && (0x80 + u % 0x40) % 0x40 == u % 0x40
  {
    assert u / 0x1000 == u / 0x40 / 0x40;
  }

  lemma {:induction false} Bits4(u: int)
    requires 0 <= u < 0x11_0000
    ensures u == u / 0x4_0000 * 0x4_0000 + u / 0x1000 % 0x40 * 0x1000 + u / 0x40 % 0x40 * 0x40 + u % 0x40
    ensures (0x80 + u / 0x1000 % 0x40) % 0x40 == u / 0x1000 % 0x40
    ensures (0x80 + u / 0x40 % 0x40) % 0x40 == u / 0x40 % 0x40 && (0x80 + u % 0x40) % 0x40 == u % 0x40
  {
    assert u / 0x1000 == u / 0x40 / 0x40 && u / 0x4_0000 == u / 0x1000 / 0x40;
  }

  lemma {:induction false} DecodeLocal(b: seq<byte>, rest: seq<byte>)
    requires b != [] && Announced(b[0]) <= |b|
    ensures DecodeChar(b + rest) == DecodeChar(b)
  {
  }

  lemma {:induction false} DecodeOne(c: char, rest: seq<byte>)
    ensures var b := EncodeChar(c) + rest;
            Announced(b[0]) == Width(c) && DecodeChar(b) == c && b[Width(c)..] == rest
  {
    DecodeWide(c);
    DecodeLocal(EncodeChar(c), rest);
  }

  lemma {:induction false} DecodeNext(c: char, rest: seq<byte>)
    ensures DecodeLossy(EncodeChar(c) + rest) == [c] + DecodeLossy(rest)
  {
    DecodeOne(c, rest);
  }

  lemma {:induction false} DecodeSplit(c: char, rest: seq<byte>, k: nat)
    requires 0 < k < Width(c)
    ensures DecodeLossy((EncodeChar(c) + rest)[..k]) == [REPLACEMENT]
  {
    DecodeWide(c);
    assert (EncodeChar(c) + rest)[..k][0] == EncodeChar(c)[0];
  }

  /** The whole characters of s in its first k bytes, and a replacement character for a split one. */
  function Shown(s: string, k: nat): string {
    var kept := s[..WholeChars(s, k)];
    kept + if ByteLength(kept) < k then [REPLACEMENT] else []
  }

  lemma {:induction false} ShownStep(s: string, k: nat)
    requires s != "" && Width(s[0]) <= k
    ensures Shown(s, k) == [s[0]] + Shown(s[1..], k - Width(s[0]))
  {
    var j := WholeChars(s[1..], k - Width(s[0]));
    assert s[..1 + j] == [s[0]] + s[1..][..j];
    assert s[..1 + j][1..] == s[1..][..j];
  }

  lemma {:induction false} EncodeStep(s: string, k: nat)
    requires s != "" && Width(s[0]) <= k <= ByteLength(s)
    ensures Encode(s)[..k] == EncodeChar(s[0]) + Encode(s[1..])[..k - Width(s[0])]
  {
  }

  /** Cutting an encoded string anywhere and decoding keeps its whole characters and turns a split
      one into a replacement character. */
  lemma {:induction false} DecodeCut(s: string, k: nat)
    requires k <= ByteLength(s)
    ensures DecodeLossy(Encode(s)[..k]) == Shown(s, k)
  {
    if k > 0 {
      if Width(s[0]) > k {
        DecodeSplitFirst(s, k);
      } else {
        DecodeCut(s[1..], k - Width(s[0]));
        DecodeWholeFirst(s, k);
      }
    }
  }

  lemma {:induction false} DecodeSplitFirst(s: string, k: nat)
    requires s != "" && 0 < k < Width(s[0])
    ensures k <= ByteLength(s) && DecodeLossy(Encode(s)[..k]) == Shown(s, k)
  {
    DecodeSplit(s[0], Encode(s[1..]), k);
  }

  lemma {:induction false} DecodeWholeFirst(s: string, k: nat)
    requires s != "" && Width(s[0]) <= k <= ByteLength(s)
    requires DecodeLossy(Encode(s[1..])[..k - Width(s[0])]) == Shown(s[1..], k - Width(s[0]))
    ensures DecodeLossy(Encode(s)[..k]) == Shown(s, k)
  {
    EncodeStep(s, k);
    DecodeNext(s[0], Encode(s[1..])[..k - Width(s[0])]);
    ShownStep(s, k);
  }

  lemma {:induction false} WholeCharsFit(s: string, k: nat)
    ensures ByteLength(s[..WholeChars(s, k)]) <= k
  {
    if s != "" && Width(s[0]) <= k {
      WholeCharsFit(s[1..], k - Width(s[0]));
      var j := WholeChars(s[1..], k - Width(s[0]));
      assert s[..1 + j][1..] == s[1..][..j];
    }
  }

  lemma {:induction false} WholeCharsGrow(s: string, k: nat, l: nat)
    requires k <= l
    ensures WholeChars(s, k) <= WholeChars(s, l)
  {
    if s != "" && Width(s[0]) <= k {
      WholeCharsGrow(s[1..], k - Width(s[0]), l - Width(s[0]));
    }
  }

  lemma {:induction false} BomBytes(s: string)
    ensures ByteLength(s) >= 3 && Encode(s)[0] == 0xEF && Encode(s)[1] == 0xBB && Encode(s)[2] == 0xBF ==> s[0] == BOM
  {
    if s != "" {
      DecodeWide(s[0]);
      assert Width(s[0]) == 3 ==> Encode(s)[..3] == EncodeChar(s[0]);
    }
  }

  /** Without a leading byte order mark the decoder swallows nothing. */
  lemma {:induction false} NoBomNoSurprise(s: string, k: nat)
    requires k <= ByteLength(s) && (s != "" ==> s[0] != BOM)
    ensures TextDecode(Encode(s)[..k]) == DecodeLossy(Encode(s)[..k])
  {
    BomBytes(s);
  }

  /** Encoding loses nothing. */
  lemma {:induction false} EncodeIsInjective(s: string, t: string)
    ensures Encode(s) == Encode(t) <==> s == t
  {
    if Encode(s) == Encode(t) {
      DecodeAll(s);
      DecodeAll(t);
    }
  }

  lemma {:induction false} DecodeAll(s: string)
    ensures DecodeLossy(Encode(s)) == s
  {
    if s != "" {
      DecodeNext(s[0], Encode(s[1..]));
      DecodeAll(s[1..]);
      assert s == [s[0]] + s[1..];
    }
  }
}
