/** The CBOR subset of src/codec.rs: item heads (RFC 8949 section 3), byte strings and text strings,
    a write buffer and a read cursor. Positions are natural numbers, so `pos + n` never overflows. */
module Cbor {
  import opened Bytes

  /** Why a decoder refuses its input. */
  datatype CodecError =
    | Truncated | ReservedHead | WrongMajor | NotUtf8 | Trailing
    | BadKey | BadKeyCount | BadOrder | BadLength | Missing | BadType | TooMany | Overflow
    | BadPath | WrongDomain | TooLong

  /** What reading at a position gives: a value and the position after it. */
  datatype Read<+T> = Bad(error: CodecError) | Got(value: T, next: nat)

  datatype Head = Head(major: int, value: u64)

  // ---------------------------------------------------------------------------------------------
  // Big-endian numbers
  // ---------------------------------------------------------------------------------------------

  function Pow256(n: nat): (r: nat)
    ensures r > 0
  {
    if n == 0 then 1 else 256 * Pow256(n - 1)
  }

  function BigEndian(v: nat, n: nat): (s: bytes)
    ensures |s| == n
  {
    if n == 0 then [] else BigEndian(v / 256, n - 1) + [v % 256]
  }

  function FromBigEndian(s: bytes): nat {
    if s == [] then 0 else 256 * FromBigEndian(s[..|s| - 1]) + s[|s| - 1]
  }

  lemma {:induction false} BigEndianRoundTrip(v: nat, n: nat)
    requires v < Pow256(n)
    ensures FromBigEndian(BigEndian(v, n)) == v
  {
    if n > 0 {
      BigEndianRoundTrip(v / 256, n - 1);
      assert BigEndian(v, n)[..n - 1] == BigEndian(v / 256, n - 1);
    }
  }

  lemma {:induction false} BigEndianUnique(s: bytes)
    ensures BigEndian(FromBigEndian(s), |s|) == s
  {
    if s != [] {
      BigEndianUnique(s[..|s| - 1]);
      assert s == s[..|s| - 1] + [s[|s| - 1]];
    }
  }

  lemma {:induction false} BigEndianBound(s: bytes)
    ensures FromBigEndian(s) < Pow256(|s|)
  {
    if s != [] {
      BigEndianBound(s[..|s| - 1]);
    }
  }

  lemma PowersOf256()
    ensures Pow256(1) == 0x100 && Pow256(2) == 0x1_0000 && Pow256(4) == 0x1_0000_0000
    ensures Pow256(8) == 0x1_0000_0000_0000_0000
  {
    assert Pow256(3) == 256 * Pow256(2);
    assert Pow256(5) == 256 * Pow256(4);
    assert Pow256(6) == 256 * Pow256(5);
    assert Pow256(7) == 256 * Pow256(6);
  }

  // ---------------------------------------------------------------------------------------------
  // What the encoders emit
  // ---------------------------------------------------------------------------------------------

  predicate Fits(n: nat) { n < 0x1_0000_0000_0000_0000 }

  /** How many bytes follow the first byte of a head that does not hold `v` itself. */
  function Width(v: u64): (w: nat)
    ensures IsWidth(w)
  {
    if v < 0x100 then 1 else if v < 0x1_0000 then 2 else if v < 0x1_0000_0000 then 4 else 8
  }

  lemma WidthRoundTrip(v: u64)
    ensures FromBigEndian(BigEndian(v, Width(v))) == v
  {
    PowersOf256();
    BigEndianRoundTrip(v, Width(v));
  }

  predicate IsWidth(w: nat) { w == 1 || w == 2 || w == 4 || w == 8 }

  /** A number read from `|s|` bytes is a 64-bit number that needs no more bytes than that. */
  lemma WidthLeast(s: bytes)
    requires IsWidth(|s|)
    ensures Fits(FromBigEndian(s)) && Width(FromBigEndian(s)) <= |s|
  {
    PowersOf256();
    BigEndianBound(s);
  }

  /** The additional information that announces `w` following bytes. */
  function Lead(w: nat): (ai: byte)
    requires IsWidth(w)
    ensures 24 <= ai <= 27
  {
    if w == 1 then 24 else if w == 2 then 25 else if w == 4 then 26 else 27
  }

  function Following(ai: byte): (w: nat)
    requires 24 <= ai <= 27
    ensures IsWidth(w) && Lead(w) == ai
  {
    if ai == 24 then 1 else if ai == 25 then 2 else if ai == 26 then 4 else 8
  }

  /** The shortest head of `v` under `major`. */
  function UintBytes(major: int, v: u64): (s: bytes)
    requires 0 <= major < 8
    ensures 1 <= |s| <= 9
  {
    if v < 24 then [32 * major + v]
    else [32 * major + Lead(Width(v))] + BigEndian(v, Width(v))
  }

  function U64Bytes(v: u64): bytes { UintBytes(0, v) }

  function BstrBytes(s: bytes): bytes
    requires Fits(|s|)
  {
    UintBytes(2, |s|) + s
  }

  function TstrBytes(s: bytes): bytes
    requires Fits(|s|)
  {
    UintBytes(3, |s|) + s
  }

  /** A map key and a number, a map key and a 32-byte string. */
  function KeyU64(k: u64, v: u64): bytes { U64Bytes(k) + U64Bytes(v) }

  function KeyBstr(k: u64, s: bytes): bytes
    requires Fits(|s|)
  {
    U64Bytes(k) + BstrBytes(s)
  }

  function KeyTstr(k: u64, s: bytes): bytes
    requires Fits(|s|)
  {
    U64Bytes(k) + TstrBytes(s)
  }

  function KeyCids(k: u64, cs: seq<Cid>): bytes
    requires Fits(|cs|)
  {
    U64Bytes(k) + (UintBytes(4, |cs|) + CidsBytes(cs))
  }

  /** The mutable byte vector the encoders push into. */
  class Buffer {
    var data: bytes

    constructor ()
      ensures data == []
    {
      data := [];
    }

    method PushUint(major: int, v: u64)
      requires 0 <= major < 8
      modifies this
      ensures data == old(data) + UintBytes(major, v)
    {
      if v < 24 {
        data := data + [32 * major + v];
      } else if v <= 0xFF {
        data := data + [32 * major + 24];
        data := data + [v];
        assert BigEndian(v, 1) == [v];
      } else if v <= 0xFFFF {
        data := data + [32 * major + 25];
        data := data + BigEndian(v, 2);
      } else if v <= 0xFFFF_FFFF {
        data := data + [32 * major + 26];
        data := data + BigEndian(v, 4);
      } else {
        data := data + [32 * major + 27];
        data := data + BigEndian(v, 8);
      }
    }

    method WriteU64(v: u64)
      modifies this
      ensures data == old(data) + U64Bytes(v)
    {
      PushUint(0, v);
    }

    method WriteBstr(s: bytes)
      requires Fits(|s|)
      modifies this
      ensures data == old(data) + BstrBytes(s)
    {
      PushUint(2, |s|);
      data := data + s;
    }

    method WriteTstr(s: bytes)
      requires Fits(|s|)
      modifies this
      ensures data == old(data) + TstrBytes(s)
    {
      PushUint(3, |s|);
      data := data + s;
    }
  }

  // ---------------------------------------------------------------------------------------------
  // Map fields as the encoders write them
  // ---------------------------------------------------------------------------------------------

  method WriteKeyU64(buf: Buffer, k: u64, v: u64)
    modifies buf
    ensures buf.data == old(buf.data) + KeyU64(k, v)
  {
    ghost var start := buf.data;
    buf.WriteU64(k);
    buf.WriteU64(v);
    Assoc(start, U64Bytes(k), U64Bytes(v));
  }

  method WriteKeyBstr(buf: Buffer, k: u64, s: bytes)
    requires Fits(|s|)
    modifies buf
    ensures buf.data == old(buf.data) + KeyBstr(k, s)
  {
    ghost var start := buf.data;
    buf.WriteU64(k);
    buf.WriteBstr(s);
    Assoc(start, U64Bytes(k), BstrBytes(s));
  }

  method WriteKeyTstr(buf: Buffer, k: u64, s: bytes)
    requires Fits(|s|)
    modifies buf
    ensures buf.data == old(buf.data) + KeyTstr(k, s)
  {
    ghost var start := buf.data;
    buf.WriteU64(k);
    buf.WriteTstr(s);
    Assoc(start, U64Bytes(k), TstrBytes(s));
  }

  /** A key, an array header and one byte string for each hash. */
  method WriteKeyCids(buf: Buffer, k: u64, cs: seq<Cid>)
    requires Fits(|cs|)
    modifies buf
    ensures buf.data == old(buf.data) + KeyCids(k, cs)
  {
    ghost var start := buf.data;
    buf.WriteU64(k);
    buf.PushUint(4, |cs|);
    ghost var header := buf.data;
    for i := 0 to |cs|
      invariant buf.data + CidsBytes(cs[i..]) == header + CidsBytes(cs)
    {
      ghost var before := buf.data;
      buf.WriteBstr(cs[i].raw);
      assert cs[i..][1..] == cs[i + 1..];
      Assoc(before, CidBytes(cs[i]), CidsBytes(cs[i + 1..]));
    }
    Assoc(start + U64Bytes(k), UintBytes(4, |cs|), CidsBytes(cs));
    Assoc(start, U64Bytes(k), UintBytes(4, |cs|) + CidsBytes(cs));
  }

  // ---------------------------------------------------------------------------------------------
  // What reading at a position means
  // ---------------------------------------------------------------------------------------------

  function TakeAt(d: bytes, p: nat, n: nat): Read<bytes> {
    if p + n > |d| then Bad(Truncated) else Got(d[p..p + n], p + n)
  }

  function ReadHead(d: bytes, p: nat): (r: Read<Head>)
    ensures r.Got? ==> p < r.next <= |d| && 0 <= r.value.major < 8
  {
    if p >= |d| then Bad(Truncated)
    else
      var ai := d[p] % 32;
      if ai < 24 then Got(Head(d[p] / 32, ai), p + 1)
      else if ai > 27 then Bad(ReservedHead)
      else
        var w := Following(ai);
        if p + 1 + w > |d| then Bad(Truncated)
        else
          WidthLeast(d[p + 1..p + 1 + w]);
          Got(Head(d[p] / 32, FromBigEndian(d[p + 1..p + 1 + w])), p + 1 + w)
  }

  function ReadUint(d: bytes, p: nat, major: int): (r: Read<u64>)
    ensures r.Got? ==> p < r.next <= |d|
  {
    match ReadHead(d, p)
    case Bad(e) => Bad(e)
    case Got(h, q) => if h.major != major then Bad(WrongMajor) else Got(h.value, q)
  }

  function ReadBstr(d: bytes, p: nat): (r: Read<bytes>)
    ensures r.Got? ==> p < r.next <= |d| && Fits(|r.value|)
  {
    match ReadUint(d, p, 2)
    case Bad(e) => Bad(e)
    case Got(n, q) => TakeAt(d, q, n)
  }

  function ReadTstr(d: bytes, p: nat): (r: Read<bytes>)
    ensures r.Got? ==> p < r.next <= |d| && Fits(|r.value|) && ValidUtf8(r.value)
  {
    match ReadUint(d, p, 3)
    case Bad(e) => Bad(e)
    case Got(n, q) =>
      match TakeAt(d, q, n)
      case Bad(e) => Bad(e)
      case Got(s, q') => if ValidUtf8(s) then Got(s, q') else Bad(NotUtf8)
  }

  /** A byte string that must have `n` bytes. */
  function ReadFixed(d: bytes, p: nat, n: nat): (r: Read<bytes>)
    ensures r.Got? ==> p < r.next <= |d| && |r.value| == n
  {
    match ReadBstr(d, p)
    case Bad(e) => Bad(e)
    case Got(s, q) => if |s| == n then Got(s, q) else Bad(BadLength)
  }

  function ReadCid(d: bytes, p: nat): (r: Read<Cid>)
    ensures r.Got? ==> p < r.next <= |d|
  {
    match ReadFixed(d, p, 32)
    case Bad(e) => Bad(e)
    case Got(s, q) => Got(Cid(s), q)
  }

  /** An array body: `n` byte strings of 32 bytes. */
  function ReadCids(d: bytes, p: nat, n: nat): (r: Read<seq<Cid>>)
    ensures r.Got? ==> p <= r.next && (p <= |d| ==> r.next <= |d|) && |r.value| == n
    decreases n
  {
    if n == 0 then Got([], p)
    else match ReadCid(d, p)
      case Bad(e) => Bad(e)
      case Got(c, q) =>
        match ReadCids(d, q, n - 1)
        case Bad(e) => Bad(e)
        case Got(cs, q') => Got([c] + cs, q')
  }

  function CidBytes(c: Cid): (s: bytes)
    ensures |s| == 34
  {
    BstrBytes(c.raw)
  }

  function CidsBytes(cs: seq<Cid>): bytes {
    if cs == [] then [] else CidBytes(cs[0]) + CidsBytes(cs[1..])
  }

  /** A list reader's result after the items `xs` already read. */
  function Prepend<T>(xs: seq<T>, r: Read<seq<T>>): Read<seq<T>> {
    match r
    case Bad(e) => Bad(e)
    case Got(ys, q) => Got(xs + ys, q)
  }

  lemma PrependNone<T>(r: Read<seq<T>>)
    ensures Prepend([], r) == r
  {
    if r.Got? {
      assert [] + r.value == r.value;
    }
  }

  lemma PrependTwice<T>(xs: seq<T>, ys: seq<T>, r: Read<seq<T>>)
    ensures Prepend(xs, Prepend(ys, r)) == Prepend(xs + ys, r)
  {
    if r.Got? {
      assert xs + (ys + r.value) == (xs + ys) + r.value;
    }
  }

  /** `src/codec.rs` Cursor: a position that advances over fixed data. */
  class Cursor {
    const data: bytes
    var pos: nat

    constructor (d: bytes)
      ensures data == d && pos == 0
    {
      data := d;
      pos := 0;
    }

    /** The cursor has done the read `r` from position `p`. */
    ghost predicate Did<T>(r: Read<T>, out: Result<T, CodecError>)
      reads this
    {
      match r
      case Bad(e) => out == Err(e)
      case Got(v, q) => out == Ok(v) && pos == q
    }

    method Take(n: nat) returns (r: Result<bytes, CodecError>)
      modifies this
      ensures Did(TakeAt(data, old(pos), n), r) && (r.Err? ==> pos == old(pos))
    {
      if pos + n > |data| {
        return Err(Truncated);
      }
      r := Ok(data[pos..pos + n]);
      pos := pos + n;
    }

    method ReadHeadItem() returns (r: Result<Head, CodecError>)
      modifies this
      ensures Did(ReadHead(data, old(pos)), r)
    {
      ghost var p := pos;
      var b := Take(1);
      if b.Err? { return Err(b.error); }
      var major, ai := b.value[0] / 32, b.value[0] % 32;
      if ai < 24 {
        return Ok(Head(major, ai));
      }
      if ai > 27 {
        return Err(ReservedHead);
      }
      var w := Following(ai);
      var x := Take(w);
      if x.Err? { return Err(x.error); }
      WidthLeast(x.value);
      r := Ok(Head(major, FromBigEndian(x.value)));
    }

    method ExpectUint(major: int) returns (r: Result<u64, CodecError>)
      modifies this
      ensures Did(ReadUint(data, old(pos), major), r)
    {
      var h := ReadHeadItem();
      if h.Err? { return Err(h.error); }
      if h.value.major != major { return Err(WrongMajor); }
      r := Ok(h.value.value);
    }

    method ReadByteString() returns (r: Result<bytes, CodecError>)
      modifies this
      ensures Did(ReadBstr(data, old(pos)), r)
    {
      var n := ExpectUint(2);
      if n.Err? { return Err(n.error); }
      r := Take(n.value);
    }

    method ReadTextString() returns (r: Result<bytes, CodecError>)
      modifies this
      ensures Did(ReadTstr(data, old(pos)), r)
    {
      var n := ExpectUint(3);
      if n.Err? { return Err(n.error); }
      r := Take(n.value);
      if r.Ok? && !ValidUtf8(r.value) {
        r := Err(NotUtf8);
      }
    }

    method ReadFixedString(n: nat) returns (r: Result<bytes, CodecError>)
      modifies this
      ensures Did(ReadFixed(data, old(pos), n), r)
    {
      r := ReadByteString();
      if r.Ok? && |r.value| != n {
        r := Err(BadLength);
      }
    }

    method ReadCidList(n: nat) returns (r: Result<seq<Cid>, CodecError>)
      modifies this
      ensures Did(ReadCids(data, old(pos), n), r)
    {
      hide ReadBstr;
      var out: seq<Cid> := [];
      ghost var whole := ReadCids(data, pos, n);
      PrependNone(whole);
      for i := 0 to n
        invariant |out| == i
        invariant whole == Prepend(out, ReadCids(data, pos, n - i))
      {
        ghost var here := pos;
        var b := ReadFixedString(32);
        if b.Err? { return Err(b.error); }
        ghost var rest := ReadCids(data, pos, n - i - 1);
        assert ReadCids(data, here, n - i) == Prepend([Cid(b.value)], rest);
        PrependTwice(out, [Cid(b.value)], rest);
        out := out + [Cid(b.value)];
      }
      assert Prepend(out, ReadCids(data, pos, 0)) == Got(out, pos) by { assert out + [] == out; }
      r := Ok(out);
    }
  }

  // ---------------------------------------------------------------------------------------------
  // Round trip: reading where the encoding stands
  // ---------------------------------------------------------------------------------------------

  /** `s` stands in `d` at position `p`. */
  predicate At(d: bytes, p: nat, s: bytes) {
    p + |s| <= |d| && d[p..p + |s|] == s
  }

  lemma AtConcat(d: bytes, p: nat, a: bytes, b: bytes)
    ensures At(d, p, a + b) <==> At(d, p, a) && At(d, p + |a|, b)
  {
    if At(d, p, a + b) {
      assert d[p..p + |a|] == (a + b)[..|a|];
      assert d[p + |a|..p + |a| + |b|] == (a + b)[|a|..];
    }
  }

  lemma AtTake(d: bytes, p: nat, s: bytes)
    requires At(d, p, s)
    ensures TakeAt(d, p, |s|) == Got(s, p + |s|)
  {
  }

  lemma HeadRoundTrip(d: bytes, p: nat, major: int, v: u64)
    requires 0 <= major < 8 && At(d, p, UintBytes(major, v))
    ensures ReadHead(d, p) == Got(Head(major, v), p + |UintBytes(major, v)|)
    ensures ReadUint(d, p, major) == Got(v, p + |UintBytes(major, v)|)
  {
    if v < 24 {
      assert d[p..p + 1][0] == d[p];
    } else {
      var w := Width(v);
      AtConcat(d, p, [32 * major + Lead(w)], BigEndian(v, w));
      assert d[p..p + 1][0] == d[p];
      WidthRoundTrip(v);
    }
  }

  lemma BstrRoundTrip(d: bytes, p: nat, s: bytes)
    requires Fits(|s|) && At(d, p, BstrBytes(s))
    ensures ReadBstr(d, p) == Got(s, p + |BstrBytes(s)|)
    ensures ReadFixed(d, p, |s|) == Got(s, p + |BstrBytes(s)|)
  {
    hide At, ReadHead, UintBytes;
    AtConcat(d, p, UintBytes(2, |s|), s);
    HeadRoundTrip(d, p, 2, |s|);
    AtTake(d, p + |UintBytes(2, |s|)|, s);
  }

  lemma CidRoundTrip(d: bytes, p: nat, c: Cid)
    requires At(d, p, CidBytes(c))
    ensures ReadCid(d, p) == Got(c, p + 34)
  {
    BstrRoundTrip(d, p, c.raw);
  }

  lemma TstrRoundTrip(d: bytes, p: nat, s: bytes)
    requires Fits(|s|) && ValidUtf8(s) && At(d, p, TstrBytes(s))
    ensures ReadTstr(d, p) == Got(s, p + |TstrBytes(s)|)
  {
    hide At, ReadHead, UintBytes, ValidUtf8;
    AtConcat(d, p, UintBytes(3, |s|), s);
    HeadRoundTrip(d, p, 3, |s|);
    AtTake(d, p + |UintBytes(3, |s|)|, s);
  }

  lemma {:induction false} CidsRoundTrip(d: bytes, p: nat, cs: seq<Cid>)
    requires At(d, p, CidsBytes(cs))
    ensures ReadCids(d, p, |cs|) == Got(cs, p + |CidsBytes(cs)|)
    decreases |cs|
  {
    hide At, ReadCid, CidBytes;
    if cs != [] {
      AtConcat(d, p, CidBytes(cs[0]), CidsBytes(cs[1..]));
      CidRoundTrip(d, p, cs[0]);
      CidsRoundTrip(d, p + 34, cs[1..]);
      assert cs == [cs[0]] + cs[1..];
    }
  }

  // ---------------------------------------------------------------------------------------------
  // Slack: what a reader accepts beyond the canonical bytes is only ever longer
  // ---------------------------------------------------------------------------------------------

  /** `s` is no longer than `d[p..q]`, and of equal length only when it is `d[p..q]`. */
  predicate Slack(d: bytes, p: nat, q: nat, s: bytes) {
    p <= q <= |d| && |s| <= q - p && (|s| == q - p ==> At(d, p, s))
  }

  lemma SlackNone(d: bytes, p: nat)
    requires p <= |d|
    ensures Slack(d, p, p, [])
  {
  }

  lemma SlackShorter(d: bytes, p: nat, q: nat, s: bytes)
    requires p <= q <= |d| && |s| < q - p
    ensures Slack(d, p, q, s)
  {
  }

  lemma SlackLength(d: bytes, p: nat, q: nat, s: bytes)
    requires Slack(d, p, q, s)
    ensures p <= q <= |d| && |s| <= q - p
  {
  }

  lemma SlackConcat(d: bytes, p: nat, q: nat, r: nat, a: bytes, b: bytes)
    requires Slack(d, p, q, a) && Slack(d, q, r, b)
    ensures Slack(d, p, r, a + b)
  {
    AtConcat(d, p, a, b);
  }

  /** Shortest form: no accepted head is shorter than the encoder's, and none as short differs. */
  lemma HeadSlack(d: bytes, p: nat)
    requires ReadHead(d, p).Got?
    ensures var r := ReadHead(d, p); Slack(d, p, r.next, UintBytes(r.value.major, r.value.value))
  {
    var r := ReadHead(d, p);
    assert d[p] == 32 * (d[p] / 32) + d[p] % 32;
    assert d[p..r.next] == [d[p]] + d[p + 1..r.next];
    if d[p] % 32 >= 24 {
      BigEndianUnique(d[p + 1..r.next]);
      WidthLeast(d[p + 1..r.next]);
    }
  }

  lemma UintSlack(d: bytes, p: nat, major: int)
    requires 0 <= major < 8 && ReadUint(d, p, major).Got?
    ensures var r := ReadUint(d, p, major); Slack(d, p, r.next, UintBytes(major, r.value))
  {
    HeadSlack(d, p);
  }

  lemma BstrSlack(d: bytes, p: nat)
    requires ReadBstr(d, p).Got?
    ensures var r := ReadBstr(d, p); Slack(d, p, r.next, BstrBytes(r.value))
  {
    hide ReadHead, UintBytes;
    var h, r := ReadUint(d, p, 2), ReadBstr(d, p);
    UintSlack(d, p, 2);
    SlackConcat(d, p, h.next, r.next, UintBytes(2, h.value), r.value);
  }

  lemma TstrSlack(d: bytes, p: nat)
    requires ReadTstr(d, p).Got?
    ensures var r := ReadTstr(d, p); Slack(d, p, r.next, TstrBytes(r.value))
  {
    hide ReadHead, UintBytes, ValidUtf8;
    var h, r := ReadUint(d, p, 3), ReadTstr(d, p);
    UintSlack(d, p, 3);
    SlackConcat(d, p, h.next, r.next, UintBytes(3, h.value), r.value);
  }

  lemma CidSlack(d: bytes, p: nat)
    requires ReadCid(d, p).Got?
    ensures var r := ReadCid(d, p); Slack(d, p, r.next, CidBytes(r.value))
  {
    BstrSlack(d, p);
  }

  lemma {:induction false} CidsSlack(d: bytes, p: nat, n: nat)
    requires p <= |d| && ReadCids(d, p, n).Got?
    ensures var r := ReadCids(d, p, n); Slack(d, p, r.next, CidsBytes(r.value))
    decreases n
  {
    hide Slack, ReadCid, CidBytes;
    if n == 0 {
      SlackNone(d, p);
    } else {
      var c, r := ReadCid(d, p), ReadCids(d, p, n);
      CidSlack(d, p);
      CidsSlack(d, c.next, n - 1);
      var rest := ReadCids(d, c.next, n - 1);
      assert r.value[1..] == rest.value;
      SlackConcat(d, p, c.next, r.next, CidBytes(c.value), CidsBytes(rest.value));
    }
  }
}
