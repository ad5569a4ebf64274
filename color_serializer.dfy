/**
 * ColorSerializer: the string codec between "#AARRGGBB" and a colour.
 *
 * deserialize strips separators, dispatches on the remaining length and parses
 * the digits with Long.parseLong(_, 16); serialize writes each component with
 * Integer.toHexString, zero-padded to two digits and upper-cased.
 */
module ColorSerializer {
  import opened Wrappers

  type Byte = x: int | 0 <= x < 256

  /** A java.awt.Color, reduced to its four 8-bit components. */
  datatype Color = Color(alpha: Byte, red: Byte, green: Byte, blue: Byte)

  /** What deserialize yields: a colour, null, or the NumberFormatException of Long.parseLong. */
  datatype Decoded = Decoded(color: Color) | NotAColor | NumberFormatError

  // ---------------------------------------------------------------------------
  // String.replaceAll with a literal pattern and an empty replacement
  // ---------------------------------------------------------------------------

  /** Removes the occurrences of p found scanning left to right, without rescanning what is left. */
  function RemoveAll(s: string, p: string): (r: string)
    requires |p| > 0
    ensures |r| <= |s|
    ensures forall c :: c in r ==> c in s
    ensures |p| == 1 ==> p[0] !in r
    ensures p[|p| - 1] !in s ==> r == s
    decreases |s|
  {
    if |s| < |p| then
      assert |p| == 1 ==> s == [];
      s
    else if s[..|p|] == p then
      assert s == s[..|p|] + s[|p|..];
      assert s[|p| - 1] == p[|p| - 1];
      RemoveAll(s[|p|..], p)
    else
      assert s == [s[0]] + s[1..];
      [s[0]] + RemoveAll(s[1..], p)
  }

  /** The characters of s other than c, in order: the reference for a one-character pass. */
  function Drop(s: string, c: char): (r: string)
    ensures forall d :: d in r <==> d in s && d != c
    ensures |r| <= |s|
    decreases |s|
  {
    if |s| == 0 then []
    else
      assert s == [s[0]] + s[1..];
      (if s[0] == c then [] else [s[0]]) + Drop(s[1..], c)
  }

  /** Dropping distributes over concatenation. */
  lemma {:induction false} DropConcat(a: string, b: string, c: char)
    ensures Drop(a + b, c) == Drop(a, c) + Drop(b, c)
    decreases |a|
  {
    if |a| == 0 {
      assert a + b == b;
    } else {
      assert (a + b)[0] == a[0] && (a + b)[1..] == a[1..] + b;
      DropConcat(a[1..], b, c);
    }
  }

  /** A pass with a one-character pattern removes exactly that character and keeps the rest in order. */
  lemma {:induction false} RemoveOne(s: string, c: char)
    ensures RemoveAll(s, [c]) == Drop(s, c)
    decreases |s|
  {
    if |s| > 0 {
      assert s[..1] == [s[0]];
      RemoveOne(s[1..], c);
    }
  }

  /** The separators deserialize removes, in its order: every "#", then every "0x", then every "_". */
  function StripSeparators(s: string): (r: string)
    ensures '#' !in r && '_' !in r
    ensures |r| <= |s|
  {
    RemoveAll(RemoveAll(RemoveAll(s, "#"), "0x"), "_")
  }

  /**
   * Without an 'x' the "0x" pass changes nothing, so stripping drops every '#' and
   * every '_' wherever they are and keeps all other characters in order.
   */
  lemma StripKeepsOthers(s: string)
    requires 'x' !in s
    ensures StripSeparators(s) == Drop(Drop(s, '#'), '_')
  {
    RemoveOne(s, '#');
    RemoveOne(Drop(s, '#'), '_');
  }

  // ---------------------------------------------------------------------------
  // Hexadecimal digits and Long.parseLong(_, 16)
  // ---------------------------------------------------------------------------

  /** Character.digit(c, 16) on ASCII: the digit's value, or -1. */
  function DigitValue(c: char): (v: int)
    ensures -1 <= v < 16
  {
    if '0' <= c <= '9' then c as int - '0' as int
    else if 'a' <= c <= 'f' then c as int - 'a' as int + 10
    else if 'A' <= c <= 'F' then c as int - 'A' as int + 10
    else -1
  }

  /**
   * The digits Character.digit accepts in radix 16 on ASCII, with their values:
   * exactly the characters of the two digit tables, each worth its position.
   */
  lemma DigitTable(c: char)
    ensures DigitValue(c) == -1 <==> c !in "0123456789abcdefABCDEF"
    ensures DigitValue(c) >= 0 ==> c == "0123456789abcdef"[DigitValue(c)] || c == "0123456789ABCDEF"[DigitValue(c)]
  {
  }

  predicate IsHexDigit(c: char) {
    DigitValue(c) >= 0
  }

  /** The digits serialize writes: 0-9 and upper-case A-F. */
  predicate IsUpperHexDigit(c: char) {
    '0' <= c <= '9' || 'A' <= c <= 'F'
  }

  predicate AllUpperHex(s: string) {
    forall i :: 0 <= i < |s| ==> IsUpperHexDigit(s[i])
  }

  predicate AllHexDigits(s: string) {
    forall i :: 0 <= i < |s| ==> IsHexDigit(s[i])
  }

  function Pow16(n: nat): (r: nat)
    ensures r >= 1
  {
    if n == 0 then 1 else 16 * Pow16(n - 1)
  }

  lemma Pow16Values()
    ensures Pow16(1) == 16 && Pow16(2) == 256 && Pow16(6) == 0x100_0000
    ensures Pow16(7) == 0x1000_0000 && Pow16(8) == 0x1_0000_0000
  {
    assert Pow16(4) == 0x1_0000 by { assert Pow16(3) == 0x1000; }
  }

  /** The value of a string of hex digits, most significant first; None when a character is no digit. */
  function HexValue(s: string): (r: Option<nat>)
    ensures r.Some? <==> AllHexDigits(s)
    ensures r.Some? ==> r.value < Pow16(|s|)
    decreases |s|
  {
    if |s| == 0 then Some(0)
    else
      var init := s[..|s| - 1];
      var last := s[|s| - 1];
      assert forall i :: 0 <= i < |init| ==> init[i] == s[i];
      match HexValue(init)
      case None => None
      case Some(v) =>
        if IsHexDigit(last) then
          assert v * 16 + DigitValue(last) < Pow16(|s|) by {
            assert v <= Pow16(|init|) - 1;
            assert v * 16 <= (Pow16(|init|) - 1) * 16;
          }
          Some(v * 16 + DigitValue(last))
        else None
  }

  const LongMin := -0x8000_0000_0000_0000
  const LongMax := 0x7FFF_FFFF_FFFF_FFFF

  /** The part of s after an optional leading '+' or '-'. */
  function Digits(s: string): string {
    if |s| > 0 && (s[0] == '-' || s[0] == '+') then s[1..] else s
  }

  /** v, negated when s starts with '-'. */
  function Signed(s: string, v: int): int {
    if |s| > 0 && s[0] == '-' then -v else v
  }

  /**
   * Long.parseLong(s, 16): an optional '+' or '-', then at least one hex digit,
   * and a value within the range of a long; None is a NumberFormatException.
   */
  function ParseLong16(s: string): (r: Option<int>)
    ensures r.Some? <==>
      |Digits(s)| > 0 && AllHexDigits(Digits(s)) && LongMin <= Signed(s, HexValue(Digits(s)).value) <= LongMax
    ensures r.Some? ==> r.value == Signed(s, HexValue(Digits(s)).value)
    ensures r.Some? ==> LongMin <= r.value <= LongMax
    ensures |s| > 0 && IsHexDigit(s[0]) && AllHexDigits(s) && HexValue(s).value <= LongMax ==> r == HexValue(s)
  {
    if |s| == 0 then None
    else
      var digits := if s[0] == '-' || s[0] == '+' then s[1..] else s;
      if |digits| == 0 then None
      else
        match HexValue(digits)
        case None => None
        case Some(v) =>
          var n: int := if s[0] == '-' then -(v as int) else v;
          if LongMin <= n <= LongMax then Some(n) else None
  }

  const TwoTo32 := 0x1_0000_0000

  /**
   * new Color((int) bits, hasAlpha): the cast keeps the low 32 bits; bits 24-31
   * are the alpha when hasAlpha holds, and the alpha is 255 otherwise.
   */
  function FromBits(bits: int, hasAlpha: bool): (c: Color)
    ensures c.blue == bits % 256 && c.green == (bits / 0x100) % 256 && c.red == (bits / 0x1_0000) % 256
    ensures c.alpha == if hasAlpha then (bits / 0x100_0000) % 256 else 255
  {
    LowBits(bits, 0x100_0000, 1);
    LowBits(bits, 0x1_0000, 0x100);
    LowBits(bits, 0x100, 0x1_0000);
    LowBits(bits, 1, 0x100_0000);
    var u := bits % TwoTo32;
    Color(if hasAlpha then (u / 0x100_0000) % 256 else 255, (u / 0x1_0000) % 256, (u / 0x100) % 256, u % 256)
  }

  lemma MulMono(a: int, b: int, m: int)
    requires a <= b && m > 0
    ensures a * m <= b * m
  {
    var d := b - a;
    assert b * m == a * m + d * m;
  }

  /** Euclidean division is unique: a quotient and a remainder in range are x / m. */
  lemma DivUnique(x: int, m: int, q: int, r: int)
    requires m > 0 && 0 <= r < m && x == q * m + r
    ensures x / m == q
  {
    var q', r' := x / m, x % m;
    assert x == q' * m + r' && 0 <= r' < m;
    if q' > q {
      MulMono(q + 1, q', m);
    } else if q' < q {
      MulMono(q' + 1, q, m);
    }
  }

  /** (a * m + u) / m == a + u / m for a positive m. */
  lemma DivShift(a: int, u: int, m: int)
    requires m > 0
    ensures (a * m + u) / m == a + u / m
  {
    var q, r := u / m, u % m;
    assert u == q * m + r && 0 <= r < m;
    assert a * m + u == (a + q) * m + r;
    DivUnique(a * m + u, m, a + q, r);
  }

  /** Truncating to 32 bits does not change byte k of a value, counted by its divisor m. */
  lemma LowBits(bits: int, m: int, k: int)
    requires m > 0 && k > 0 && m * k * 256 == TwoTo32
    ensures (bits % TwoTo32) / m % 256 == (bits / m) % 256
  {
    var q, u := bits / TwoTo32, bits % TwoTo32;
    assert bits == (q * k * 256) * m + u;
    DivShift(q * k * 256, u, m);
    assert bits / m == (q * k) * 256 + u / m;
  }

  /** The component written as the two hex digits at offset i. */
  function PairAt(s: string, i: nat): (v: Byte)
    requires i + 2 <= |s| && AllHexDigits(s)
    ensures HexValue(s[i..i + 2]) == Some(v)
  {
    assert AllHexDigits(s[i..i + 2]) by {
      assert s[i..i + 2] == [s[i], s[i + 1]];
    }
    Pow16Values();
    HexValue(s[i..i + 2]).value
  }

  /**
   * deserialize: six digits left after stripping are RRGGBB with alpha 255, eight
   * are AARRGGBB, and any other length is null.
   */
  function Deserialize(s: string): (r: Decoded)
    ensures var t := StripSeparators(s);
      && (|t| != 6 && |t| != 8 ==> r == NotAColor)
      && (r == NumberFormatError <==> (|t| == 6 || |t| == 8) && ParseLong16(t).None?)
      && (r.Decoded? && |t| == 6 ==> r.color.alpha == 255)
      && (|t| == 6 && AllHexDigits(t) ==> r == Decoded(Color(255, PairAt(t, 0), PairAt(t, 2), PairAt(t, 4))))
      && (|t| == 8 && AllHexDigits(t) ==> r == Decoded(Color(PairAt(t, 0), PairAt(t, 2), PairAt(t, 4), PairAt(t, 6))))
  {
    var color := StripSeparators(s);
    if |color| == 6 then
      SixDigits(color);
      match ParseLong16(color)
      case None => NumberFormatError
      case Some(v) => Decoded(FromBits(v, false))
    else if |color| == 8 then
      EightDigits(color);
      match ParseLong16(color)
      case None => NumberFormatError
      case Some(v) => Decoded(FromBits(v, true))
    else NotAColor
  }

  // ---------------------------------------------------------------------------
  // serialize
  // ---------------------------------------------------------------------------

  /** The digit of value d as Integer.toHexString writes it (lower case). */
  function LowerDigit(d: int): (c: char)
    requires 0 <= d < 16
    ensures DigitValue(c) == d
  {
    "0123456789abcdef"[d]
  }

  /** Integer.toHexString of a non-negative int: lower-case digits, no leading zeros. */
  function ToHexString(n: nat): (r: string)
    ensures 1 <= |r|
    ensures n < 16 ==> |r| == 1
    ensures 16 <= n < 256 ==> |r| == 2
    ensures HexValue(r) == Some(n)
    decreases n
  {
    if n < 16 then
      var r := [LowerDigit(n)];
      assert r[..0] == [];
      r
    else
      var init := ToHexString(n / 16);
      var r := init + [LowerDigit(n % 16)];
      assert r[..|r| - 1] == init;
      r
  }

  /** Pads a one-digit string with a leading "0". */
  function ZeroPad(h: string): (r: string)
    ensures |h| == 1 ==> |r| == 2 && r[0] == '0' && r[1] == h[0]
    ensures |h| != 1 ==> r == h
  {
    if |h| == 1 then "0" + h else h
  }

  /** String.toUpperCase on ASCII letters. */
  function UpperChar(c: char): (u: char)
    ensures IsHexDigit(c) ==> DigitValue(u) == DigitValue(c) && IsUpperHexDigit(u)
  {
    if 'a' <= c <= 'z' then (c as int - 32) as char else c
  }

  function UpperCase(s: string): (r: string)
    ensures |r| == |s| && forall i :: 0 <= i < |s| ==> r[i] == UpperChar(s[i])
  {
    seq(|s|, i requires 0 <= i < |s| => UpperChar(s[i]))
  }

  /** Upper-casing hex digits keeps their value and leaves only the digits serialize writes. */
  lemma UpperCaseDigits(s: string)
    requires AllHexDigits(s)
    ensures AllUpperHex(UpperCase(s)) && HexValue(UpperCase(s)) == HexValue(s)
  {
    var u := UpperCase(s);
    assert forall i :: 0 <= i < |s| ==> IsHexDigit(s[i]);
    SameDigits(s, u);
  }

  /** One component as serialize writes it: two upper-case hex digits of its value. */
  function Component(x: Byte): (r: string)
    ensures |r| == 2 && AllUpperHex(r)
    ensures HexValue(r) == Some(x)
  {
    var h := ToHexString(x);
    var padded := ZeroPad(h);
    assert HexValue(padded) == Some(x) by {
      if |h| == 1 {
        assert padded[..1] == "0";
        assert padded[..1][..0] == [];
      }
    }
    UpperCaseDigits(padded);
    UpperCase(padded)
  }

  lemma AllUpperHexConcat(a: string, b: string)
    requires AllUpperHex(a) && AllUpperHex(b)
    ensures AllUpperHex(a + b)
  {
    var ab := a + b;
    forall i | 0 <= i < |ab| ensures IsUpperHexDigit(ab[i]) {
      if i >= |a| { assert ab[i] == b[i - |a|]; }
    }
  }

  /** Where each of four two-character parts lands behind a "#". */
  lemma Layout(a: string, b: string, c: string, d: string)
    requires |a| == 2 && |b| == 2 && |c| == 2 && |d| == 2
    ensures var w := "#" + (a + b + c + d);
      && |w| == 9 && w[0] == '#' && w[1..] == a + b + c + d
      && w[1..3] == a && w[3..5] == b && w[5..7] == c && w[7..9] == d
  {
  }

  /** serialize: "#" and the alpha, red, green and blue components, in that order. */
  function Serialize(c: Color): (r: string)
    ensures |r| == 9 && r[0] == '#' && AllUpperHex(r[1..])
    ensures HexValue(r[1..3]) == Some(c.alpha) && HexValue(r[3..5]) == Some(c.red)
    ensures HexValue(r[5..7]) == Some(c.green) && HexValue(r[7..9]) == Some(c.blue)
  {
    var a, rd, g, b := Component(c.alpha), Component(c.red), Component(c.green), Component(c.blue);
    AllUpperHexConcat(a, rd);
    AllUpperHexConcat(a + rd, g);
    AllUpperHexConcat(a + rd + g, b);
    Layout(a, rd, g, b);
    "#" + (a + rd + g + b)
  }

  // ---------------------------------------------------------------------------
  // Lemmas
  // ---------------------------------------------------------------------------

  /** Strings whose characters have the same digit values have the same value. */
  lemma {:induction false} SameDigits(s: string, t: string)
    requires |s| == |t|
    requires forall i :: 0 <= i < |s| ==> DigitValue(t[i]) == DigitValue(s[i])
    ensures HexValue(t) == HexValue(s)
    decreases |s|
  {
    if |s| > 0 {
      SameDigits(s[..|s| - 1], t[..|t| - 1]);
    }
  }

  lemma AllHexDigitsConcat(a: string, b: string)
    requires AllHexDigits(a) && AllHexDigits(b)
    ensures AllHexDigits(a + b)
  {
    var ab := a + b;
    forall i | 0 <= i < |ab| ensures IsHexDigit(ab[i]) {
      if i >= |a| { assert ab[i] == b[i - |a|]; }
    }
  }

  /** The value of a concatenation: the left digits shifted past the right ones. */
  lemma {:induction false} HexValueConcat(a: string, b: string)
    requires AllHexDigits(a) && AllHexDigits(b)
    ensures AllHexDigits(a + b)
    ensures HexValue(a + b).value == HexValue(a).value * Pow16(|b|) + HexValue(b).value
    decreases |b|
  {
    AllHexDigitsConcat(a, b);
    if |b| == 0 {
      assert a + b == a;
    } else {
      var init := b[..|b| - 1];
      assert AllHexDigits(init) by {
        assert forall i :: 0 <= i < |init| ==> init[i] == b[i];
      }
      HexValueConcat(a, init);
      var ab := a + b;
      assert ab[..|ab| - 1] == a + init;
      assert ab[|ab| - 1] == b[|b| - 1];
      var va, vi, d := HexValue(a).value, HexValue(init).value, DigitValue(b[|b| - 1]);
      var p := Pow16(|init|);
      assert HexValue(ab).value == HexValue(a + init).value * 16 + d;
      assert HexValue(b).value == vi * 16 + d;
      assert Pow16(|b|) == p * 16;
      ShiftDigit(va, p, vi, d);
    }
  }

  lemma ShiftDigit(va: int, p: int, vi: int, d: int)
    ensures (va * p + vi) * 16 + d == va * (p * 16) + (vi * 16 + d)
  {
  }

  /** The four bytes packed as bits 24-31, 16-23, 8-15 and 0-7 come back out of FromBits. */
  lemma Unpack(p0: Byte, p1: Byte, p2: Byte, p3: Byte)
    ensures var v := ((p0 as int * 256 + p1) * 256 + p2) * 256 + p3;
      FromBits(v, true) == Color(p0, p1, p2, p3) && FromBits(v, false) == Color(255, p1, p2, p3)
  {
    var v: int := ((p0 as int * 256 + p1) * 256 + p2) * 256 + p3;
    assert v % TwoTo32 == v;
    assert v / 0x100_0000 == p0;
    assert v / 0x1_0000 == p0 as int * 256 + p1;
    assert (p0 as int * 256 + p1) % 256 == p1;
    assert v / 0x100 == (p0 as int * 256 + p1) * 256 + p2;
    assert ((p0 as int * 256 + p1) * 256 + p2) % 256 == p2;
    assert v % 256 == p3;
  }

  /** The value of three or four two-digit pairs written one after the other. */
  lemma PairsValue(a: string, b: string, c: string, d: string)
    requires |a| == 2 && |b| == 2 && |c| == 2 && |d| == 2
    requires AllHexDigits(a) && AllHexDigits(b) && AllHexDigits(c) && AllHexDigits(d)
    ensures AllHexDigits(a + b + c) && AllHexDigits(a + b + c + d)
    ensures HexValue(a + b + c).value == (HexValue(a).value * 256 + HexValue(b).value) * 256 + HexValue(c).value
    ensures HexValue(a + b + c + d).value == HexValue(a + b + c).value * 256 + HexValue(d).value
  {
    AllHexDigitsConcat(a, b);
    AllHexDigitsConcat(a + b, c);
    AllHexDigitsConcat(a + b + c, d);
    SplitValue(a + b + c, d, HexValue(d).value);
    SplitValue(a + b, c, HexValue(c).value);
    SplitValue(a, b, HexValue(b).value);
  }

  /** Eight characters are their four pairs. */
  lemma Pairs8(t: string)
    requires |t| == 8
    ensures t == t[0..2] + t[2..4] + t[4..6] + t[6..8]
  {
  }

  /** The value of eight hex digits, pair by pair. */
  lemma EightDigitValue(t: string)
    requires |t| == 8 && AllHexDigits(t)
    ensures HexValue(t).value
      == ((PairAt(t, 0) as int * 256 + PairAt(t, 2)) * 256 + PairAt(t, 4)) * 256 + PairAt(t, 6)
  {
    Pairs8(t);
    PairsValue(t[0..2], t[2..4], t[4..6], t[6..8]);
  }

  /** Eight hex digits parse to a value whose four bytes are the four digit pairs. */
  lemma EightDigits(t: string)
    requires |t| == 8
    ensures AllHexDigits(t) ==>
      && ParseLong16(t).Some?
      && FromBits(ParseLong16(t).value, true) == Color(PairAt(t, 0), PairAt(t, 2), PairAt(t, 4), PairAt(t, 6))
  {
    if AllHexDigits(t) {
      Pow16Values();
      assert IsHexDigit(t[0]);
      EightDigitValue(t);
      Unpack(PairAt(t, 0), PairAt(t, 2), PairAt(t, 4), PairAt(t, 6));
    }
  }

  /** Six characters are their three pairs. */
  lemma Pairs6(t: string)
    requires |t| == 6
    ensures t == t[0..2] + t[2..4] + t[4..6]
  {
  }

  /** The value of six hex digits, pair by pair. */
  lemma SixDigitValue(t: string)
    requires |t| == 6 && AllHexDigits(t)
    ensures HexValue(t).value == (PairAt(t, 0) as int * 256 + PairAt(t, 2)) * 256 + PairAt(t, 4)
  {
    Pairs6(t);
    PairsValue(t[0..2], t[2..4], t[4..6], t[4..6]);
  }

  /** Six hex digits parse to a value whose three low bytes are the three digit pairs. */
  lemma SixDigits(t: string)
    requires |t| == 6
    ensures AllHexDigits(t) ==>
      && ParseLong16(t).Some?
      && FromBits(ParseLong16(t).value, false) == Color(255, PairAt(t, 0), PairAt(t, 2), PairAt(t, 4))
  {
    if AllHexDigits(t) {
      Pow16Values();
      assert IsHexDigit(t[0]);
      SixDigitValue(t);
      Unpack(0, PairAt(t, 0), PairAt(t, 2), PairAt(t, 4));
    }
  }

  /** A string of hex digits split before its last two digits, whose value is `low`. */
  lemma SplitValue(high: string, last2: string, low: nat)
    requires |last2| == 2 && AllHexDigits(high + last2)
    requires HexValue(last2) == Some(low)
    ensures AllHexDigits(high) && HexValue(high + last2).value == HexValue(high).value * 256 + low
  {
    var s := high + last2;
    assert forall i :: 0 <= i < |high| ==> high[i] == s[i];
    Pow16Values();
    HexValueConcat(high, last2);
  }

  /** A "#" followed by upper-case hex digits strips to those digits. */
  lemma StripHash(s: string)
    requires |s| > 0 && s[0] == '#'
    requires AllUpperHex(s[1..])
    ensures StripSeparators(s) == s[1..] && AllHexDigits(s[1..])
  {
    var t := s[1..];
    assert forall i :: 0 <= i < |t| ==> t[i] == s[i + 1];
    assert '#' !in t && 'x' !in t && '_' !in t by {
      forall i | 0 <= i < |t| ensures t[i] != '#' && t[i] != 'x' && t[i] != '_' {
        assert IsUpperHexDigit(t[i]);
      }
    }
    assert s[..1] == "#";
    assert RemoveAll(s, "#") == RemoveAll(t, "#") == t;
    assert AllHexDigits(t) by {
      forall i | 0 <= i < |t| ensures IsHexDigit(t[i]) {
        assert IsUpperHexDigit(t[i]);
      }
    }
  }

  /** Any string of the shape serialize writes decodes to the colour its pairs spell. */
  lemma DecodeWritten(s: string, c: Color)
    requires |s| == 9 && s[0] == '#'
    requires AllUpperHex(s[1..])
    requires HexValue(s[1..3]) == Some(c.alpha) && HexValue(s[3..5]) == Some(c.red)
    requires HexValue(s[5..7]) == Some(c.green) && HexValue(s[7..9]) == Some(c.blue)
    ensures Deserialize(s) == Decoded(c)
  {
    StripHash(s);
    var t := s[1..];
    assert t[0..2] == s[1..3] && t[2..4] == s[3..5] && t[4..6] == s[5..7] && t[6..8] == s[7..9];
  }

  /** Round trip: deserialize(serialize(c)) == c for every colour. */
  lemma RoundTrip(c: Color)
    ensures Deserialize(Serialize(c)) == Decoded(c)
  {
    DecodeWritten(Serialize(c), c);
  }

  /** A string holding none of the separators is left as it is. */
  lemma NoSeparators(s: string)
    requires '#' !in s && 'x' !in s && '_' !in s
    ensures StripSeparators(s) == s
  {
  }

  /** What deserialize makes of a string, given what is left of it after stripping. */
  lemma DecodeStripped(s: string, t: string)
    requires StripSeparators(s) == t
    ensures |t| == 6 && ParseLong16(t).Some? ==> Deserialize(s) == Decoded(FromBits(ParseLong16(t).value, false))
    ensures |t| == 8 && ParseLong16(t).Some? ==> Deserialize(s) == Decoded(FromBits(ParseLong16(t).value, true))
    ensures (|t| == 6 || |t| == 8) && ParseLong16(t).None? ==> Deserialize(s) == NumberFormatError
  {
  }

  /** Hex digits hold none of the separators. */
  lemma DigitsHaveNoSeparators(d: string)
    requires AllHexDigits(d)
    ensures '#' !in d && 'x' !in d && '_' !in d && StripSeparators(d) == d
  {
    assert forall i :: 0 <= i < |d| ==> IsHexDigit(d[i]);
  }

  /** A leading "#" or "0x" is removed before the digits are counted. */
  lemma {:induction false} Prefixes(d: string)
    requires AllHexDigits(d)
    ensures StripSeparators("#" + d) == d
    ensures StripSeparators("0x" + d) == d
  {
    DigitsHaveNoSeparators(d);
    var h := "#" + d;
    assert h[..1] == "#" && h[1..] == d;
    assert RemoveAll(h, "#") == d;
    var z := "0x" + d;
    assert '#' !in z by { assert forall i :: 2 <= i < |z| ==> z[i] == d[i - 2]; }
    assert z[..2] == "0x" && z[2..] == d;
    assert RemoveAll(z, "0x") == d;
  }

  /** Where no occurrence of p begins, the first character is kept and the scan goes on after it. */
  lemma KeepFirst(s: string, p: string)
    requires |p| > 0 && |s| > 0 && (|p| <= |s| ==> s[..|p|] != p)
    ensures RemoveAll(s, p) == [s[0]] + RemoveAll(s[1..], p)
  {
    var rest := s[1..];
    if |s| < |p| {
      assert RemoveAll(s, p) == s;
      assert |rest| < |p| && RemoveAll(rest, p) == rest;
      assert s == [s[0]] + rest;
    } else {
      assert RemoveAll(s, p) == [s[0]] + RemoveAll(rest, p);
    }
  }


  /** An occurrence of p at the front is dropped and the scan goes on after it. */
  lemma DropMatch(s: string, p: string)
    requires 0 < |p| <= |s| && s[..|p|] == p
    ensures RemoveAll(s, p) == RemoveAll(s[|p|..], p)
  {
  }

  /** The "0x" pass finds nothing in "0_x" followed by digits. */
  lemma ZeroXPass(d: string)
    requires 'x' !in d
    ensures RemoveAll("0_x" + d, "0x") == "0_x" + d
  {
    var s := "0_x" + d;
    var s1 := s[1..];
    var x := s1[1..];
    assert s1 == "_x" + d && x == "x" + d && x[1..] == d;
    assert RemoveAll(d, "0x") == d;
    assert |d| > 0 ==> x[..2][0] == 'x';
    KeepFirst(x, "0x");
    assert [x[0]] + d == x;
    assert s1[..2] == "_x";
    KeepFirst(s1, "0x");
    assert [s1[0]] + x == s1;
    assert s[..2] == "0_";
    KeepFirst(s, "0x");
    assert [s[0]] + s1 == s;
  }

  /** Removing a one-character pattern keeps every other character in front. */
  lemma KeepOther(c: char, u: char, rest: string)
    requires c != u
    ensures RemoveAll([c] + rest, [u]) == [c] + RemoveAll(rest, [u])
  {
    var s := [c] + rest;
    assert s[..1] == [c] && s[1..] == rest;
    KeepFirst(s, [u]);
  }

  /** Removing a one-character pattern drops it in front. */
  lemma DropSame(u: char, rest: string)
    ensures RemoveAll([u] + rest, [u]) == RemoveAll(rest, [u])
  {
    var s := [u] + rest;
    assert s[..1] == [u] && s[1..] == rest;
    DropMatch(s, [u]);
  }

  /** The "_" pass then turns "0_x" followed by digits into "0x" followed by them. */
  lemma UnderscorePass(d: string)
    requires '_' !in d
    ensures RemoveAll("0_x" + d, "_") == "0x" + d
  {
    var x := ['x'] + d;
    var u := ['_'] + x;
    calc {
      RemoveAll("0_x" + d, "_");
    == { assert "0_x" + d == ['0'] + u; }
      RemoveAll(['0'] + u, "_");
    == { KeepOther('0', '_', u); }
      ['0'] + RemoveAll(u, "_");
    == { DropSame('_', x); }
      ['0'] + RemoveAll(x, "_");
    == { KeepOther('x', '_', d); }
      ['0'] + (['x'] + RemoveAll(d, "_"));
    == { assert RemoveAll(d, "_") == d; }
      "0x" + d;
    }
  }

  /**
   * The separators are stripped one kind at a time: in "0_x" the "_" goes only after
   * the "0x" pass, so an "0x" is left in front of the digits.
   */
  lemma SeparatorOrder(d: string)
    requires AllHexDigits(d)
    ensures StripSeparators("0_x" + d) == "0x" + d
  {
    DigitsHaveNoSeparators(d);
    var s := "0_x" + d;
    assert '#' !in s by { assert forall i :: 3 <= i < |s| ==> s[i] == d[i - 3]; }
    assert RemoveAll(s, "#") == s;
    ZeroXPass(d);
    UnderscorePass(d);
  }

  /** Six digits behind "0_x" are eight characters the parser rejects. */
  lemma SeparatorOrderRejected(d: string)
    requires |d| == 6 && AllHexDigits(d)
    ensures Deserialize("0_x" + d) == NumberFormatError
  {
    SeparatorOrder(d);
    var t := "0x" + d;
    assert !IsHexDigit(t[1]);
  }

  /** Long.parseLong with a sign in front of the digits. */
  lemma ParseSigned(sign: char, d: string)
    requires sign == '-' || sign == '+'
    requires |d| > 0 && AllHexDigits(d) && HexValue(d).value <= LongMax
    ensures var v := HexValue(d).value;
      ParseLong16([sign] + d) == Some(if sign == '-' then -(v as int) else v)
  {
    var s := [sign] + d;
    assert s[0] == sign && s[1..] == d;
    assert Digits(s) == d;
    var v := HexValue(d).value;
    assert Signed(s, v) == if sign == '-' then -(v as int) else v;
  }

  /**
   * The sign counts towards the eight characters and Long.parseLong accepts it:
   * a sign and seven digits decode to the low 32 bits of the signed value (so
   * "-0000001" is opaque white).
   */
  lemma SignedEight(sign: char, d: string)
    requires sign == '-' || sign == '+'
    requires |d| == 7 && AllHexDigits(d)
    ensures var v := HexValue(d).value;
      Deserialize([sign] + d) == Decoded(FromBits(if sign == '-' then -(v as int) else v, true))
  {
    var s := [sign] + d;
    DigitsHaveNoSeparators(d);
    assert '#' !in s && 'x' !in s && '_' !in s by { assert forall i :: 1 <= i < |s| ==> s[i] == d[i - 1]; }
    NoSeparators(s);
    Pow16Values();
    ParseSigned(sign, d);
    DecodeStripped(s, s);
  }

  /** Components of the test colour, written out digit by digit. */
  lemma ComponentExamples()
    ensures Component(255) == "FF" && Component(13) == "0D"
    ensures Component(32) == "20" && Component(64) == "40"
  {
    assert ToHexString(15) == "f" && ToHexString(255) == "ff";
    assert UpperCase("ff") == "FF";
    assert ToHexString(13) == "d" && UpperCase("0d") == "0D";
    assert ToHexString(2) == "2" && ToHexString(32) == "20" && UpperCase("20") == "20";
    assert ToHexString(4) == "4" && ToHexString(64) == "40" && UpperCase("40") == "40";
  }

  /** The opaque colour of the test configurations, as serialize writes it. */
  lemma TestColor(c: Color)
    requires c == Color(255, 13, 32, 64)
    ensures Serialize(c) == "#FF0D2040"
  {
    ComponentExamples();
    assert "#" + ("FF" + "0D" + "20" + "40") == "#FF0D2040";
  }

  /** The translucent colour of the test configurations, as serialize writes it. */
  lemma AlphaTestColor(c: Color)
    requires c == Color(128, 13, 32, 64)
    ensures Serialize(c) == "#800D2040"
  {
    ComponentExamples();
    assert Component(128) == "80" by {
      assert ToHexString(8) == "8" && ToHexString(128) == "80";
      assert UpperCase("80") == "80";
    }
    assert "#" + ("80" + "0D" + "20" + "40") == "#800D2040";
  }
}
