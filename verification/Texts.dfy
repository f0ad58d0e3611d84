/** What the text functions of module Bytes mean, in terms of characters and digits: UTF-8 by code points (RFC 3629),
    white space, hexadecimal text and the order of strings. */
module Texts {
  import opened Bytes

  /** The bytes of an ASCII string. */
  function Ascii(s: string): (r: bytes)
    requires forall i :: 0 <= i < |s| ==> s[i] < 128 as char
    ensures |r| == |s|
  {
    seq(|s|, i requires 0 <= i < |s| => s[i] as int)
  }

  // ---------------------------------------------------------------------------------------------
  // UTF-8
  // ---------------------------------------------------------------------------------------------

  /** A Unicode scalar value: a code point that is no surrogate. */
  predicate IsScalar(c: int) { 0 <= c < 0xD800 || 0xE000 <= c < 0x110000 }

  type Scalar = c: int | 0 <= c < 0xD800 || 0xE000 <= c < 0x110000

  /** The UTF-8 form of a character. */
  function Utf8Char(c: Scalar): (s: bytes)
    ensures 1 <= |s| <= 4
  {
    if c < 0x80 then [c]
    else if c < 0x800 then [0xC0 + c / 64, 0x80 + c % 64]
    else if c < 0x10000 then [0xE0 + c / 64 / 64, 0x80 + c / 64 % 64, 0x80 + c % 64]
    else
      assert c / 64 < 0x4400 && c / 64 / 64 < 0x110;
      [0xF0 + c / 64 / 64 / 64, 0x80 + c / 64 / 64 % 64, 0x80 + c / 64 % 64, 0x80 + c % 64]
  }

  function Utf8(cs: seq<Scalar>): bytes {
    if cs == [] then [] else Utf8Char(cs[0]) + Utf8(cs[1..])
  }

  lemma CharStands(c: Scalar, rest: bytes)
    ensures CharWidth(Utf8Char(c) + rest) == |Utf8Char(c)|
  {
    var s := Utf8Char(c) + rest;
    if 0x800 <= c < 0x10000 {
      assert s[0] == 0xE0 + c / 64 / 64 && s[1] == 0x80 + c / 64 % 64 && s[2] == 0x80 + c % 64;
      Digits(c);
    } else if c >= 0x10000 {
      assert s[0] == 0xF0 + c / 64 / 64 / 64 && s[1] == 0x80 + c / 64 / 64 % 64;
      assert s[2] == 0x80 + c / 64 % 64 && s[3] == 0x80 + c % 64;
      Digits(c);
    }
  }

  /** The digits of a number to the base of 64. */
  lemma Digits(c: nat)
    ensures c == 64 * (c / 64) + c % 64 && c / 64 == 64 * (c / 64 / 64) + c / 64 % 64
    ensures c / 64 / 64 == 64 * (c / 64 / 64 / 64) + c / 64 / 64 % 64
  {
  }

  /** A string of characters is valid. */
  lemma {:induction false} Utf8IsValid(cs: seq<Scalar>)
    ensures ValidUtf8(Utf8(cs))
  {
    if cs != [] {
      CharStands(cs[0], Utf8(cs[1..]));
      CutConcat(Utf8Char(cs[0]), Utf8(cs[1..]));
      Utf8IsValid(cs[1..]);
    }
  }

  /** The character at the front of valid text. */
  function FrontChar(s: bytes): (c: int)
    requires CharWidth(s) != 0
  {
    if CharWidth(s) == 1 then s[0]
    else if CharWidth(s) == 2 then 64 * Low(s[0], 0xC0) + Low(s[1], 0x80)
    else if CharWidth(s) == 3 then 64 * (64 * Low(s[0], 0xE0) + Low(s[1], 0x80)) + Low(s[2], 0x80)
    else 64 * (64 * (64 * Low(s[0], 0xF0) + Low(s[1], 0x80)) + Low(s[2], 0x80)) + Low(s[3], 0x80)
  }

  function Low(b: byte, lead: int): int { b - lead }

  lemma FrontCharIs(s: bytes)
    requires CharWidth(s) != 0
    ensures IsScalar(FrontChar(s)) && Utf8Char(FrontChar(s)) == s[..CharWidth(s)]
  {
    var w, c := CharWidth(s), FrontChar(s);
    if w == 3 {
      var x := 64 * Low(s[0], 0xE0) + Low(s[1], 0x80);
      assert c / 64 == x && c % 64 == Low(s[2], 0x80);
      assert x / 64 == Low(s[0], 0xE0) && x % 64 == Low(s[1], 0x80);
    } else if w == 4 {
      var y := 64 * Low(s[0], 0xF0) + Low(s[1], 0x80);
      var x := 64 * y + Low(s[2], 0x80);
      assert c / 64 == x && c % 64 == Low(s[3], 0x80);
      assert x / 64 == y && x % 64 == Low(s[2], 0x80);
      assert y / 64 == Low(s[0], 0xF0) && y % 64 == Low(s[1], 0x80);
    }
  }

  /** Valid text is a string of characters. */
  lemma {:induction false} ValidIsUtf8(s: bytes) returns (cs: seq<Scalar>)
    requires ValidUtf8(s)
    ensures Utf8(cs) == s
    decreases |s|
  {
    if s == [] { return []; }
    FrontCharIs(s);
    var c: Scalar := FrontChar(s);
    var rest := ValidIsUtf8(s[CharWidth(s)..]);
    TakeDrop(s, CharWidth(s));
    cs := [c] + rest;
  }

  /** Text is valid if and only if it is the UTF-8 form of some characters. */
  lemma ValidUtf8Exact(s: bytes)
    ensures ValidUtf8(s) <==> exists cs: seq<Scalar> :: Utf8(cs) == s
  {
    if ValidUtf8(s) {
      var cs := ValidIsUtf8(s);
    }
    if cs: seq<Scalar> :| Utf8(cs) == s { Utf8IsValid(cs); }
  }

  lemma {:induction false} Utf8Join(a: seq<Scalar>, b: seq<Scalar>)
    ensures Utf8(a + b) == Utf8(a) + Utf8(b)
  {
    if a == [] {
      assert a + b == b;
    } else {
      Utf8Join(a[1..], b);
      assert (a + b)[1..] == a[1..] + b;
      Assoc(Utf8Char(a[0]), Utf8(a[1..]), Utf8(b));
    }
  }

  // ---------------------------------------------------------------------------------------------
  // White space
  // ---------------------------------------------------------------------------------------------

  /** The Unicode property White_Space. */
  predicate IsSpace(c: int) {
    || 0x09 <= c <= 0x0D || c == 0x20 || c == 0x85 || c == 0xA0 || c == 0x1680 || 0x2000 <= c <= 0x200A
    || c == 0x2028 || c == 0x2029 || c == 0x202F || c == 0x205F || c == 0x3000
  }

  predicate AllSpace(cs: seq<Scalar>) { forall i :: 0 <= i < |cs| ==> IsSpace(cs[i]) }

  /** At the front a character is trimmed exactly if it is white space. */
  lemma TrimStartChar(c: Scalar, rest: bytes)
    ensures TrimStart(Utf8Char(c) + rest) == if IsSpace(c) then TrimStart(rest) else Utf8Char(c) + rest
  {
    var s := Utf8Char(c) + rest;
    CutConcat(Utf8Char(c), rest);
    if c < 0x80 {
      assert s[0] == c;
    } else if c < 0x800 {
      assert s[0] == 0xC0 + c / 64 && s[1] == 0x80 + c % 64;
    } else if c < 0x10000 {
      assert s[0] == 0xE0 + c / 64 / 64 && s[1] == 0x80 + c / 64 % 64 && s[2] == 0x80 + c % 64;
    } else {
      assert s[0] == 0xF0 + c / 64 / 64 / 64;
    }
  }

  /** At the end likewise: no part of a character looks like white space. */
  lemma TrimEndChar(front: bytes, c: Scalar)
    ensures TrimEnd(front + Utf8Char(c)) == if IsSpace(c) then TrimEnd(front) else front + Utf8Char(c)
  {
    var s, n := front + Utf8Char(c), |front|;
    CutConcat(front, Utf8Char(c));
    if c < 0x80 {
      assert s[n] == c;
    } else if c < 0x800 {
      assert s[n] == 0xC0 + c / 64 && s[n + 1] == 0x80 + c % 64;
    } else if c < 0x10000 {
      assert s[n] == 0xE0 + c / 64 / 64 && s[n + 1] == 0x80 + c / 64 % 64 && s[n + 2] == 0x80 + c % 64;
    } else {
      assert s[n] == 0xF0 + c / 64 / 64 / 64 && s[n + 1] == 0x80 + c / 64 / 64 % 64;
      assert s[n + 2] == 0x80 + c / 64 % 64 && s[n + 3] == 0x80 + c % 64;
    }
  }

  lemma {:induction false} TrimStartSpaces(a: seq<Scalar>, m: seq<Scalar>)
    requires AllSpace(a) && (m != [] ==> !IsSpace(m[0]))
    ensures TrimStart(Utf8(a + m)) == Utf8(m)
    decreases |a|
  {
    hide TrimStart, IsSpace, Utf8Char;
    if a == [] {
      assert a + m == m;
      if m == [] { NothingToTrim(); } else { TrimStartChar(m[0], Utf8(m[1..])); }
    } else {
      assert (a + m)[1..] == a[1..] + m;
      TrimStartChar(a[0], Utf8(a[1..] + m));
      TrimStartSpaces(a[1..], m);
    }
  }

  lemma NothingToTrim()
    ensures TrimStart([]) == [] && TrimEnd([]) == [] && Utf8([]) == []
  {
  }

  lemma {:induction false} TrimEndSpaces(m: seq<Scalar>, b: seq<Scalar>)
    requires AllSpace(b) && (m != [] ==> !IsSpace(m[|m| - 1]))
    ensures TrimEnd(Utf8(m) + Utf8(b)) == Utf8(m)
    decreases |b|
  {
    hide TrimEnd, IsSpace, Utf8Char;
    if b == [] {
      assert Utf8(m) + [] == Utf8(m);
      if m == [] {
        NothingToTrim();
      } else {
        LastChar(m);
        TrimEndChar(Utf8(m[..|m| - 1]), m[|m| - 1]);
      }
    } else {
      var n := |b| - 1;
      LastChar(b);
      Assoc(Utf8(m), Utf8(b[..n]), Utf8Char(b[n]));
      TrimEndChar(Utf8(m) + Utf8(b[..n]), b[n]);
      TrimEndSpaces(m, b[..n]);
    }
  }

  lemma OneChar(c: Scalar)
    ensures Utf8([c]) == Utf8Char(c)
  {
    hide Utf8Char;
    assert [c][1..] == [];
    assert Utf8Char(c) + [] == Utf8Char(c);
  }

  lemma LastChar(cs: seq<Scalar>)
    requires cs != []
    ensures Utf8(cs) == Utf8(cs[..|cs| - 1]) + Utf8Char(cs[|cs| - 1])
  {
    hide Utf8Char, Utf8;
    var n := |cs| - 1;
    assert cs == cs[..n] + [cs[n]];
    Utf8Join(cs[..n], [cs[n]]);
    OneChar(cs[n]);
  }

  /** Trimming takes off exactly the white space on both sides. */
  lemma TrimExact(a: seq<Scalar>, m: seq<Scalar>, b: seq<Scalar>)
    requires AllSpace(a) && AllSpace(b) && (m != [] ==> !IsSpace(m[0]) && !IsSpace(m[|m| - 1]))
    ensures Trim(Utf8(a + m + b)) == Utf8(m)
  {
    hide TrimStart, TrimEnd, IsSpace, Utf8;
    if m == [] {
      assert a + m + b == (a + b) + [];
      TrimStartSpaces(a + b, []);
      NothingToTrim();
    } else {
      assert a + m + b == a + (m + b);
      TrimStartSpaces(a, m + b);
      Utf8Join(m, b);
      TrimEndSpaces(m, b);
    }
  }

  // ---------------------------------------------------------------------------------------------
  // Hexadecimal text
  // ---------------------------------------------------------------------------------------------

  const DIGITS: string := "0123456789abcdef"

  /** Two lower-case digits for each byte, the higher one first. */
  lemma {:induction false} HexDigits(b: bytes, i: nat)
    requires i < |b|
    ensures HexEncode(b)[2 * i] == DIGITS[b[i] / 16] as int && HexEncode(b)[2 * i + 1] == DIGITS[b[i] % 16] as int
    decreases i
  {
    if i > 0 {
      HexDigits(b[1..], i - 1);
      assert HexEncode(b)[2 * i] == HexEncode(b[1..])[2 * (i - 1)];
      assert HexEncode(b)[2 * i + 1] == HexEncode(b[1..])[2 * (i - 1) + 1];
    } else {
      DigitIs(b[0] / 16);
      DigitIs(b[0] % 16);
    }
  }

  lemma DigitIs(n: int)
    requires 0 <= n < 16
    ensures HexDigit(n) == DIGITS[n] as int
  {
    assert |DIGITS| == 16;
  }

  lemma DigitExact(x: byte, n: int)
    requires 0 <= n < 16
    ensures HexValue(x) == Some(n) <==> LowerByte(x) == HexDigit(n)
  {
  }

  lemma ValueExact(x: byte)
    ensures HexValue(x).Some? ==> LowerByte(x) == HexDigit(HexValue(x).value)
  {
  }

  /** What the text decodes to, letters put in lower case, has that text for its hexadecimal form. */
  lemma {:induction false} HexDecodeIs(s: bytes)
    requires HexDecode(s).Some?
    ensures Lower(s) == HexEncode(HexDecode(s).value)
    decreases |s|
  {
    hide HexDigit, HexValue, LowerByte;
    if s == [] {
      assert Lower(s) == [];
    } else {
      var b, h, l := HexDecode(s).value, HexValue(s[0]).value, HexValue(s[1]).value;
      HexDecodeIs(s[2..]);
      ValueExact(s[0]);
      ValueExact(s[1]);
      assert b == [16 * h + l] + HexDecode(s[2..]).value && b[1..] == HexDecode(s[2..]).value;
      assert b[0] / 16 == h && b[0] % 16 == l;
      assert Lower(s) == [LowerByte(s[0]), LowerByte(s[1])] + Lower(s[2..]);
    }
  }

  lemma {:induction false} HexDecodeOf(s: bytes, b: bytes)
    requires Lower(s) == HexEncode(b)
    ensures HexDecode(s) == Some(b)
    decreases |s|
  {
    hide HexDigit, HexValue, LowerByte;
    assert |s| == |Lower(s)| == 2 * |b|;
    if b != [] {
      assert Lower(s)[0] == LowerByte(s[0]) && Lower(s)[1] == LowerByte(s[1]);
      DigitExact(s[0], b[0] / 16);
      DigitExact(s[1], b[0] % 16);
      assert Lower(s[2..]) == Lower(s)[2..];
      assert HexEncode(b)[2..] == HexEncode(b[1..]);
      HexDecodeOf(s[2..], b[1..]);
      assert 16 * (b[0] / 16) + b[0] % 16 == b[0];
      assert b == [b[0]] + b[1..];
    }
  }

  /** Text decodes to these bytes if and only if, letters put in lower case, it is their hexadecimal form. */
  lemma HexDecodeExact(s: bytes, b: bytes)
    ensures HexDecode(s) == Some(b) <==> Lower(s) == HexEncode(b)
  {
    hide HexDecode, HexEncode, Lower;
    if HexDecode(s).Some? { HexDecodeIs(s); }
    if Lower(s) == HexEncode(b) { HexDecodeOf(s, b); }
  }

  /** A content hash is read from text exactly when the trimmed text, letters put in lower case, is its own. */
  lemma FromHexExact(s: bytes, c: Cid)
    ensures FromHex(s) == Some(c) <==> Lower(Trim(s)) == HexEncode(c.raw)
  {
    hide Trim, HexDecode, HexValue;
    var t := Trim(s);
    HexDecodeExact(t, c.raw);
    assert |Lower(t)| == |t|;
    if Lower(t) == HexEncode(c.raw) {
      forall i | 0 <= i < |t| ensures HexValue(t[i]).Some? {
        LowerDigit(t[i]);
        assert Lower(t)[i] == LowerByte(t[i]);
      }
    }
  }

  lemma LowerDigit(x: byte)
    ensures HexValue(LowerByte(x)).Some? ==> HexValue(x).Some?
  {
  }

  // ---------------------------------------------------------------------------------------------
  // The order of strings
  // ---------------------------------------------------------------------------------------------

  /** The strings agree before index `i`, and there the first has the smaller byte. */
  predicate SmallerAt(a: bytes, b: bytes, i: nat) { i < |a| && i < |b| && a[..i] == b[..i] && a[i] < b[i] }

  lemma SmallerTail(a: bytes, b: bytes, i: nat)
    requires a != [] && b != [] && a[0] == b[0]
    ensures SmallerAt(a, b, i + 1) <==> SmallerAt(a[1..], b[1..], i)
    ensures !SmallerAt(a, b, 0)
    ensures a < b <==> a[1..] < b[1..]
  {
    assert a == [a[0]] + a[1..] && b == [b[0]] + b[1..];
    if i < |a[1..]| && i < |b[1..]| {
      assert a[..i + 1] == [a[0]] + a[1..][..i] && b[..i + 1] == [b[0]] + b[1..][..i];
      assert a[..i + 1][1..] == a[1..][..i] && b[..i + 1][1..] == b[1..][..i];
    }
  }

  /** One string comes before another if it is a proper prefix, or has the smaller byte where they first differ. */
  lemma {:induction false} LessExact(a: bytes, b: bytes)
    ensures Less(a, b) <==> a < b || exists i: nat :: SmallerAt(a, b, i)
    decreases |a|
  {
    hide SmallerAt;
    if a == [] || b == [] {
      forall i: nat ensures !SmallerAt(a, b, i) { AtNoIndex(a, b, i); }
    } else if a[0] == b[0] {
      LessExact(a[1..], b[1..]);
      forall i: nat ensures SmallerAt(a, b, i + 1) <==> SmallerAt(a[1..], b[1..], i) { SmallerTail(a, b, i); }
      SmallerTail(a, b, 0);
      if i: nat :| SmallerAt(a[1..], b[1..], i) { assert SmallerAt(a, b, i + 1); }
      if i: nat :| SmallerAt(a, b, i) { assert SmallerAt(a[1..], b[1..], i - 1); }
    } else {
      AtFirst(a, b);
    }
  }

  lemma AtNoIndex(a: bytes, b: bytes, i: nat)
    requires a == [] || b == []
    ensures !SmallerAt(a, b, i)
  {
  }

  lemma AtFirst(a: bytes, b: bytes)
    requires a != [] && b != [] && a[0] != b[0]
    ensures (exists i: nat :: SmallerAt(a, b, i)) <==> a[0] < b[0]
    ensures !(a < b)
  {
    if a[0] < b[0] {
      assert SmallerAt(a, b, 0);
    } else {
      forall i: nat ensures !SmallerAt(a, b, i) {
        if i > 0 && i < |a| && i < |b| { FrontsDiffer(a, b, i); }
      }
    }
  }

  lemma FrontsDiffer(a: bytes, b: bytes, i: nat)
    requires a != [] && b != [] && a[0] != b[0] && 0 < i <= |a| && i <= |b|
    ensures a[..i] != b[..i]
  {
    assert a[..i][0] == a[0] && b[..i][0] == b[0];
  }
}
