/** Bytes, options and results, byte order, UTF-8 validity and hexadecimal text.
    A Rust `String` is a byte sequence that is valid UTF-8; it is modelled as exactly that. */
module Bytes {

  type byte = b: int | 0 <= b < 0x100
  type u64 = v: int | 0 <= v < 0x1_0000_0000_0000_0000
  type bytes = seq<byte>

  datatype Option<+T> = None | Some(value: T) {
    function GetOr(default: T): T {
      if Some? then value else default
    }
  }

  datatype Result<+T, +E> = Ok(value: T) | Err(error: E)

  /** A 32-byte content hash. */
  type Raw32 = s: bytes | |s| == 32 witness seq(32, _ => 0)
  datatype Cid = Cid(raw: Raw32)

  function Zeros(n: nat): (s: bytes)
    ensures |s| == n
  {
    if n == 0 then [] else Zeros(n - 1) + [0]
  }

  lemma Assoc<T>(a: seq<T>, b: seq<T>, c: seq<T>)
    ensures a + (b + c) == (a + b) + c
  {
  }

  /** A concatenation taken apart where it was put together. */
  lemma CutConcat<T>(a: seq<T>, b: seq<T>)
    ensures (a + b)[..|a|] == a && (a + b)[|a|..] == b
  {
  }

  /** Slicing twice. */
  lemma Slices<T>(s: seq<T>, w: nat, i: nat)
    requires w <= i <= |s|
    ensures s[w..][i - w..] == s[i..] && s[..w] + s[w..][..i - w] == s[..i]
  {
  }

  lemma TakeDrop<T>(s: seq<T>, i: nat)
    requires i <= |s|
    ensures s == s[..i] + s[i..]
  {
  }

  // ---------------------------------------------------------------------------------------------
  // Byte order on strings (the order of a BTreeMap<String, _>)
  // ---------------------------------------------------------------------------------------------

  predicate Less(a: bytes, b: bytes) {
    b != [] && (a == [] || a[0] < b[0] || (a[0] == b[0] && Less(a[1..], b[1..])))
  }

  lemma {:induction false} LessTransitive(a: bytes, b: bytes, c: bytes)
    requires Less(a, b) && Less(b, c)
    ensures Less(a, c)
  {
    if a != [] && a[0] == b[0] == c[0] {
      LessTransitive(a[1..], b[1..], c[1..]);
    }
  }

  lemma {:induction false} LessIrreflexive(a: bytes)
    ensures !Less(a, a)
  {
    if a != [] {
      LessIrreflexive(a[1..]);
    }
  }

  lemma {:induction false} LessTotal(a: bytes, b: bytes)
    ensures Less(a, b) || a == b || Less(b, a)
  {
    if a != [] && b != [] && a[0] == b[0] {
      LessTotal(a[1..], b[1..]);
      assert a == [a[0]] + a[1..] && b == [b[0]] + b[1..];
    }
  }

  // ---------------------------------------------------------------------------------------------
  // UTF-8 (RFC 3629): what `str::from_utf8` accepts
  // ---------------------------------------------------------------------------------------------

  predicate Cont(b: byte) { 0x80 <= b < 0xC0 }

  /** Length of the well-formed character at the front of `s`, or 0 if there is none. */
  function CharWidth(s: bytes): (w: nat)
    ensures w <= |s| && w <= 4
    ensures s != [] && s[0] < 0x80 ==> w == 1
    ensures forall i :: 1 <= i < w ==> Cont(s[i])
    ensures w != 0 ==> !Cont(s[0])
  {
    if s == [] then 0
    else if s[0] < 0x80 then 1
    else if 0xC2 <= s[0] < 0xE0 then
      if |s| >= 2 && Cont(s[1]) then 2 else 0
    else if 0xE0 <= s[0] < 0xF0 then
      if |s| >= 3 && Cont(s[1]) && Cont(s[2]) && (s[0] == 0xE0 ==> 0xA0 <= s[1]) && (s[0] == 0xED ==> s[1] < 0xA0)
      then 3 else 0
    else if 0xF0 <= s[0] < 0xF5 then
      if |s| >= 4 && Cont(s[1]) && Cont(s[2]) && Cont(s[3]) && (s[0] == 0xF0 ==> 0x90 <= s[1])
          && (s[0] == 0xF4 ==> s[1] < 0x90)
      then 4 else 0
    else 0
  }

  predicate ValidUtf8(s: bytes) {
    s == [] || (CharWidth(s) != 0 && ValidUtf8(s[CharWidth(s)..]))
  }

  /** The width of the first character depends on that character alone. */
  lemma CharWidthPrefix(a: bytes, b: bytes)
    requires CharWidth(a) != 0
    ensures CharWidth(a + b) == CharWidth(a)
  {
    assert forall i :: 0 <= i < |a| ==> (a + b)[i] == a[i];
  }

  lemma {:induction false} Utf8Concat(a: bytes, b: bytes)
    requires ValidUtf8(a) && ValidUtf8(b)
    ensures ValidUtf8(a + b)
  {
    if a == [] {
      assert a + b == b;
    } else {
      var w := CharWidth(a);
      CharWidthPrefix(a, b);
      Utf8Concat(a[w..], b);
      assert (a + b)[w..] == a[w..] + b;
    }
  }

  /** Valid text cut in front of a byte that starts a character is valid on both sides. */
  lemma {:induction false} Utf8Split(s: bytes, i: nat)
    requires ValidUtf8(s) && i <= |s|
    requires i < |s| ==> !Cont(s[i])
    ensures ValidUtf8(s[..i]) && ValidUtf8(s[i..])
  {
    if i == 0 {
      assert s[..0] == [] && s[0..] == s;
    } else if i == |s| {
      assert s[..i] == s && s[i..] == [];
    } else {
      var w := CharWidth(s);
      Utf8Split(s[w..], i - w);
      Slices(s, w, i);
      FirstCharIsUtf8(s);
      Utf8Concat(s[..w], s[w..][..i - w]);
    }
  }

  lemma FirstCharIsUtf8(s: bytes)
    requires CharWidth(s) != 0
    ensures ValidUtf8(s[..CharWidth(s)])
  {
    var w := CharWidth(s);
    var c := s[..w];
    assert forall j :: 0 <= j < w ==> c[j] == s[j];
    assert CharWidth(c) == w && c[w..] == [];
  }

  lemma {:induction false} AsciiIsUtf8(s: bytes)
    requires forall i :: 0 <= i < |s| ==> s[i] < 0x80
    ensures ValidUtf8(s)
  {
    if s != [] {
      AsciiIsUtf8(s[1..]);
    }
  }

  // ---------------------------------------------------------------------------------------------
  // Hexadecimal text
  // ---------------------------------------------------------------------------------------------

  /** The length in bytes of `s[i..j]` if that is one Unicode white-space character, and otherwise 0. */
  function SpaceAt(s: bytes, i: nat, j: nat): nat
    requires i <= j <= |s|
  {
    if j - i == 1 && (0x09 <= s[i] <= 0x0D || s[i] == 0x20) then 1
    else if j - i == 2 && s[i] == 0xC2 && (s[i + 1] == 0x85 || s[i + 1] == 0xA0) then 2
    else if j - i == 3 && s[i] == 0xE1 && s[i + 1] == 0x9A && s[i + 2] == 0x80 then 3
    else if j - i == 3 && s[i] == 0xE2 && s[i + 1] == 0x80
        && (0x80 <= s[i + 2] <= 0x8A || s[i + 2] in {0xA8, 0xA9, 0xAF}) then 3
    else if j - i == 3 && s[i] == 0xE2 && s[i + 1] == 0x81 && s[i + 2] == 0x9F then 3
    else if j - i == 3 && s[i] == 0xE3 && s[i + 1] == 0x80 && s[i + 2] == 0x80 then 3
    else 0
  }

  function TrimStart(s: bytes): bytes {
    if |s| >= 1 && SpaceAt(s, 0, 1) == 1 then TrimStart(s[1..])
    else if |s| >= 2 && SpaceAt(s, 0, 2) == 2 then TrimStart(s[2..])
    else if |s| >= 3 && SpaceAt(s, 0, 3) == 3 then TrimStart(s[3..])
    else s
  }

  function TrimEnd(s: bytes): bytes {
    if |s| >= 1 && SpaceAt(s, |s| - 1, |s|) == 1 then TrimEnd(s[..|s| - 1])
    else if |s| >= 2 && SpaceAt(s, |s| - 2, |s|) == 2 then TrimEnd(s[..|s| - 2])
    else if |s| >= 3 && SpaceAt(s, |s| - 3, |s|) == 3 then TrimEnd(s[..|s| - 3])
    else s
  }

  /** `str::trim` */
  function Trim(s: bytes): bytes { TrimEnd(TrimStart(s)) }

  /** ASCII upper-case letters in lower case. */
  function LowerByte(b: byte): byte { if 65 <= b <= 90 then b + 32 else b }

  function Lower(s: bytes): bytes { seq(|s|, i requires 0 <= i < |s| => LowerByte(s[i])) }

  function HexDigit(n: int): byte
    requires 0 <= n < 16
  {
    if n < 10 then 48 + n else 87 + n
  }

  /** The value of an ASCII hexadecimal digit of either case. */
  function HexValue(c: byte): (v: Option<int>)
    ensures v.Some? ==> 0 <= v.value < 16
  {
    if 48 <= c <= 57 then Some(c - 48)
    else if 97 <= c <= 102 then Some(c - 87)
    else if 65 <= c <= 70 then Some(c - 55)
    else None
  }

  function HexEncode(b: bytes): (s: bytes)
    ensures |s| == 2 * |b|
    ensures forall i :: 0 <= i < |s| ==> HexValue(s[i]).Some?
  {
    if b == [] then [] else [HexDigit(b[0] / 16), HexDigit(b[0] % 16)] + HexEncode(b[1..])
  }

  function HexDecode(s: bytes): (r: Option<bytes>)
    ensures r.Some? ==> 2 * |r.value| == |s|
  {
    if s == [] then Some([])
    else if |s| == 1 then None
    else
      match (HexValue(s[0]), HexValue(s[1]), HexDecode(s[2..]))
      case (Some(h), Some(l), Some(rest)) => Some([16 * h + l] + rest)
      case _ => None
  }

  /** `ContentHash::from_hex` */
  function FromHex(s: bytes): Option<Cid> {
    var t := Trim(s);
    if |t| != 64 || exists i :: 0 <= i < |t| && HexValue(t[i]).None? then None
    else match HexDecode(t)
      case Some(raw) => Some(Cid(raw))
      case None => None
  }

  /** Hexadecimal text has no white space at either end. */
  lemma TrimHex(s: bytes)
    requires forall i :: 0 <= i < |s| ==> HexValue(s[i]).Some?
    ensures Trim(s) == s
  {
    if s != [] {
      assert HexValue(s[0]).Some?;
      assert TrimStart(s) == s;
      assert HexValue(s[|s| - 1]).Some?;
      assert TrimEnd(s) == s;
    }
  }

  lemma {:induction false} HexRoundTrip(b: bytes)
    ensures HexDecode(HexEncode(b)) == Some(b)
  {
    if b != [] {
      HexRoundTrip(b[1..]);
      assert HexEncode(b)[2..] == HexEncode(b[1..]);
      assert [16 * (b[0] / 16) + b[0] % 16] + b[1..] == b;
    }
  }

  lemma FromHexRoundTrip(c: Cid)
    ensures FromHex(HexEncode(c.raw)) == Some(c)
  {
    HexRoundTrip(c.raw);
    TrimHex(HexEncode(c.raw));
  }
}
