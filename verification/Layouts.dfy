/** The wires byte by byte: item heads of RFC 8949, domains, and the bodies of commits, announcements and trees. */
module Layouts {
  import opened Bytes
  import opened Texts
  import opened Trees
  import opened Cbor
  import opened Records
  import opened TreeCodec
  import opened Frames
  import opened Commits
  import opened Heads

  /** The shortest head of a number: its first byte has the major type in the upper three bits. */
  lemma HeadLayout(major: int, v: u64)
    requires 0 <= major < 8
    ensures v < 24 ==> UintBytes(major, v) == [32 * major + v]
    ensures 24 <= v < 256 ==> UintBytes(major, v) == [32 * major + 24, v]
    ensures 256 <= v < 65536 ==> UintBytes(major, v) == [32 * major + 25, v / 256, v % 256]
    ensures 65536 <= v < 0x1_0000_0000 ==>
              UintBytes(major, v) == [32 * major + 26, v / 256 / 256 / 256, v / 256 / 256 % 256, v / 256 % 256, v % 256]
    ensures v >= 0x1_0000_0000 ==>
              && |UintBytes(major, v)| == 9 && UintBytes(major, v)[0] == 32 * major + 27
              && UintBytes(major, v)[5..] == [v / 256 / 256 / 256 % 256, v / 256 / 256 % 256, v / 256 % 256, v % 256]
              && UintBytes(major, v)[1..5] == BigEndian(v / 0x1_0000_0000, 4)
  {
    hide FromBigEndian;
    if v >= 24 { LastBytes(v, Width(v)); }
    if v >= 0x1_0000_0000 {
      FourAndFour(v);
      var s := UintBytes(major, v);
      assert s == [32 * major + 27] + (BigEndian(v / 0x1_0000_0000, 4) + BigEndian(v, 4));
      assert s[1..5] == BigEndian(v / 0x1_0000_0000, 4) && s[5..] == BigEndian(v, 4);
      LastBytes(v, 4);
    }
  }

  lemma LastBytes(v: nat, n: nat)
    ensures n == 1 && v < 256 ==> BigEndian(v, n) == [v]
    ensures n == 2 && v < 65536 ==> BigEndian(v, n) == [v / 256, v % 256]
    ensures n == 4 ==> BigEndian(v, n) == [v / 256 / 256 / 256 % 256, v / 256 / 256 % 256, v / 256 % 256, v % 256]
  {
    assert BigEndian(v, 0) == [];
    assert BigEndian(v / 256 / 256 / 256, 1) == [v / 256 / 256 / 256 % 256];
    assert n == 4 ==> BigEndian(v, 4) == BigEndian(v / 256, 3) + [v % 256];
    assert BigEndian(v / 256, 3) == BigEndian(v / 256 / 256, 2) + [v / 256 % 256];
  }

  lemma FourAndFour(v: nat)
    ensures BigEndian(v, 8) == BigEndian(v / 0x1_0000_0000, 4) + BigEndian(v, 4)
  {
    var w := v / 256 / 256 / 256 / 256;
    assert w == v / 0x1_0000_0000;
    assert BigEndian(v, 8) == BigEndian(v / 256, 7) + [v % 256];
    assert BigEndian(v / 256, 7) == BigEndian(v / 256 / 256, 6) + [v / 256 % 256];
    assert BigEndian(v / 256 / 256, 6) == BigEndian(v / 256 / 256 / 256, 5) + [v / 256 / 256 % 256];
    assert BigEndian(v / 256 / 256 / 256, 5) == BigEndian(w, 4) + [v / 256 / 256 / 256 % 256];
    LastBytes(v, 4);
  }

  /** A number is read from a head of any width that holds it, the shortest or not. */
  lemma AnyWidthIsRead(d: bytes, p: nat, major: int, v: u64, w: nat)
    requires 0 <= major < 8 && (w == 1 || w == 2 || w == 4 || w == 8) && v < Pow256(w)
    requires var ai := if w == 1 then 24 else if w == 2 then 25 else if w == 4 then 26 else 27;
             At(d, p, [32 * major + ai] + BigEndian(v, w))
    ensures ReadHead(d, p) == Got(Head(major, v), p + 1 + w)
  {
    hide BigEndian, FromBigEndian, Pow256;
    var ai := if w == 1 then 24 else if w == 2 then 25 else if w == 4 then 26 else 27;
    AtConcat(d, p, [32 * major + ai], BigEndian(v, w));
    assert d[p..p + 1][0] == d[p];
    BigEndianRoundTrip(v, w);
  }

  lemma DomainsAre()
    ensures DOMAIN_TREE == Ascii("soal/tree/v1") + [0, 0, 0, 0]
    ensures DOMAIN_COMMIT == Ascii("soal/commit/v1") + [0, 0]
    ensures DOMAIN_HEAD == Ascii("soal/head/v1") + [0, 0, 0, 0]
  {
  }

  /** Thirty-two bytes are announced by 0x58 0x20, sixty-four by 0x58 0x40, sixteen by 0x50. */
  lemma FixedStrings(s: bytes)
    ensures |s| == 32 ==> BstrBytes(s) == [0x58, 0x20] + s
    ensures |s| == 64 ==> BstrBytes(s) == [0x58, 0x40] + s
    ensures |s| == 16 ==> BstrBytes(s) == [0x50] + s
  {
    if |s| == 32 || |s| == 64 || |s| == 16 { HeadLayout(2, |s|); }
  }

  /** A list of hashes: one byte string after the other. */
  lemma {:induction false} CidsLayout(cs: seq<Cid>, i: nat)
    requires i < |cs|
    ensures |CidsBytes(cs)| == 34 * |cs| && CidsBytes(cs)[34 * i..34 * i + 34] == [0x58, 0x20] + cs[i].raw
    decreases |cs|
  {
    FixedStrings(cs[0].raw);
    if |cs| > 1 {
      CidsLayout(cs[1..], if i > 0 then i - 1 else 0);
      var rest := CidsBytes(cs[1..]);
      assert CidsBytes(cs) == CidBytes(cs[0]) + rest;
      if i > 0 { assert CidsBytes(cs)[34 * i..34 * i + 34] == rest[34 * (i - 1)..34 * (i - 1) + 34]; }
    } else {
      assert CidsBytes(cs[1..]) == [];
    }
  }

  // ---------------------------------------------------------------------------------------------
  // Commits
  // ---------------------------------------------------------------------------------------------

  /** The six fields that a signature covers. */
  function SixFields(H: bytes -> Cid, c: Commit): bytes
    requires CommitFits(c)
  {
    [1, 0x58, 0x20] + c.tree.raw
    + [2] + UintBytes(4, |c.parents|) + CidsBytes(c.parents)
    + [3, 0x58, 0x20] + AuthorId(H, c.author).raw
    + [4] + UintBytes(0, c.timestamp)
    + [5] + UintBytes(3, |c.message|) + c.message
    + [6] + UintBytes(0, if c.version == 0 then 1 else c.version)
  }

  lemma OneMoreKeyed(k: nat, xs: seq<Val>, x: Val)
    requires AllFit(xs) && ValFits(x) && k + |xs| < 23
    ensures AllFit(xs + [x]) && KeyedBytes(k, xs + [x]) == KeyedBytes(k, xs) + [k + |xs|] + ValBytes(x)
  {
    hide ValBytes, KeyedBytes;
    KeyedAppend(k, xs, x);
    HeadLayout(0, k + |xs|);
    Assoc(KeyedBytes(k, xs), [k + |xs|], ValBytes(x));
  }

  /** Six values under the keys 1 to 6. */
  lemma SixKeyed(xs: seq<Val>)
    requires |xs| == 6 && AllFit(xs)
    ensures KeyedBytes(1, xs) == [1] + ValBytes(xs[0]) + [2] + ValBytes(xs[1]) + [3] + ValBytes(xs[2])
                                 + [4] + ValBytes(xs[3]) + [5] + ValBytes(xs[4]) + [6] + ValBytes(xs[5])
  {
    hide KeyedBytes, ValBytes;
    Nothing(1);
    assert xs[..0] == [] && xs[..6] == xs;
    forall i | 0 <= i < 6 ensures xs[..i + 1] == xs[..i] + [xs[i]] { }
    OneMoreKeyed(1, xs[..0], xs[0]);
    OneMoreKeyed(1, xs[..1], xs[1]);
    OneMoreKeyed(1, xs[..2], xs[2]);
    OneMoreKeyed(1, xs[..3], xs[3]);
    OneMoreKeyed(1, xs[..4], xs[4]);
    OneMoreKeyed(1, xs[..5], xs[5]);
    assert [] + [1] == [1];
  }

  lemma SixFieldsKeyed(H: bytes -> Cid, c: Commit)
    requires CommitFits(c)
    ensures AllFit(SignedVals(H, c)) && KeyedBytes(1, SignedVals(H, c)) == SixFields(H, c)
  {
    hide KeyedBytes, UintBytes, CidsBytes, AuthorId, BstrBytes;
    ValsFit(H, c);
    SixKeyed(SignedVals(H, c));
    FixedStrings(c.tree.raw);
    FixedStrings(AuthorId(H, c.author).raw);
    SixJoined(c.tree.raw, UintBytes(4, |c.parents|), CidsBytes(c.parents), AuthorId(H, c.author).raw,
      UintBytes(0, c.timestamp), UintBytes(3, |c.message|), c.message, UintBytes(0, WireVersion(c)));
  }

  lemma Nothing(k: nat)
    requires k < 23
    ensures KeyedBytes(k, []) == []
  {
  }

  /** The same bytes, bracketed from the left. */
  lemma SixJoined(tree: bytes, n: bytes, cs: bytes, author: bytes, time: bytes, m: bytes, message: bytes, v: bytes)
    ensures [1] + ([0x58, 0x20] + tree) + [2] + (n + cs) + [3] + ([0x58, 0x20] + author) + [4] + time
            + [5] + (m + message) + [6] + v
         == [1, 0x58, 0x20] + tree + [2] + n + cs + [3, 0x58, 0x20] + author + [4] + time + [5] + m + message + [6] + v
  {
    var a := [1, 0x58, 0x20] + tree;
    assert [1] + ([0x58, 0x20] + tree) == a;
    var b := a + [2] + n + cs;
    assert a + [2] + (n + cs) == b;
    var c := b + [3, 0x58, 0x20] + author;
    assert b + [3] + ([0x58, 0x20] + author) == c;
    var e := c + [4] + time + [5];
    assert e + (m + message) == e + m + message;
  }

  /** The sign preimage: the commit domain, a map of six, the six fields. */
  lemma SignMessageLayout(H: bytes -> Cid, c: Commit)
    requires CommitFits(c)
    ensures SignMessage(H, c) == Ascii("soal/commit/v1") + [0, 0] + ([0xA6] + SixFields(H, c))
  {
    hide KeyedBytes, SixFields, SignedVals;
    SixFieldsKeyed(H, c);
    DomainsAre();
    HeadLayout(5, 6);
  }

  /** The wire: the commit domain, a map of seven, the six fields and the 64 signature bytes. */
  lemma CommitLayout(H: bytes -> Cid, c: Commit)
    requires CommitFits(c)
    ensures CommitWire(H, c)
         == Ascii("soal/commit/v1") + [0, 0] + ([0xA7] + SixFields(H, c) + [7, 0x58, 0x40] + SignatureBytes(c))
  {
    hide KeyedBytes, SixFields, SignedVals, SignatureBytes;
    SixFieldsKeyed(H, c);
    DomainsAre();
    HeadLayout(5, 7);
    ValsFit(H, c);
    OneMoreKeyed(1, SignedVals(H, c), BV(SignatureBytes(c)));
    FixedStrings(SignatureBytes(c));
    SevenJoined(SixFields(H, c), SignatureBytes(c));
  }

  lemma SevenJoined(six: bytes, sig: bytes)
    ensures [0xA7] + (six + [7] + ([0x58, 0x40] + sig)) == [0xA7] + six + [7, 0x58, 0x40] + sig
  {
  }

  // ---------------------------------------------------------------------------------------------
  // Announcements
  // ---------------------------------------------------------------------------------------------

  /** The preimage of an announcement: the head domain, a map header of six, and seven pairs; key 3 is left out. */
  lemma HeadMessageLayout(a: Announcement)
    ensures HeadMessage(a) == Ascii("soal/head/v1") + [0, 0, 0, 0] + ([0xA6]
              + ([1] + UintBytes(0, a.version) + [2, 0x50] + a.vaultId
                 + ([4, 0x58, 0x20] + a.head.raw + [5] + UintBytes(0, a.timestamp) + [6, 0x58, 0x20] + a.nodeId.raw
                    + [7] + UintBytes(0, a.sequence) + [8] + UintBytes(0, a.configSeq))))
  {
    hide KeyedBytes, UintBytes;
    HeadValsFit(a);
    DomainsAre();
    HeadLayout(5, 6);
    TwoKeyed(FrontVals(a));
    FiveKeyed(BackVals(a));
    FixedStrings(a.vaultId);
    FixedStrings(a.head.raw);
    FixedStrings(a.nodeId.raw);
    FrontJoined(UintBytes(0, a.version), a.vaultId);
    BackJoined(a.head.raw, UintBytes(0, a.timestamp), a.nodeId.raw, UintBytes(0, a.sequence),
        UintBytes(0, a.configSeq));
  }

  lemma TwoKeyed(xs: seq<Val>)
    requires |xs| == 2 && AllFit(xs)
    ensures KeyedBytes(1, xs) == [1] + ValBytes(xs[0]) + [2] + ValBytes(xs[1])
  {
    hide KeyedBytes, ValBytes;
    Nothing(1);
    assert xs[..0] == [] && xs[..2] == xs;
    forall i | 0 <= i < 2 ensures xs[..i + 1] == xs[..i] + [xs[i]] { }
    OneMoreKeyed(1, xs[..0], xs[0]);
    OneMoreKeyed(1, xs[..1], xs[1]);
    assert [] + [1] == [1];
  }

  lemma FiveKeyed(xs: seq<Val>)
    requires |xs| == 5 && AllFit(xs)
    ensures KeyedBytes(4, xs) == [4] + ValBytes(xs[0]) + [5] + ValBytes(xs[1]) + [6] + ValBytes(xs[2])
                                 + [7] + ValBytes(xs[3]) + [8] + ValBytes(xs[4])
  {
    hide KeyedBytes, ValBytes;
    Nothing(4);
    assert xs[..0] == [] && xs[..5] == xs;
    forall i | 0 <= i < 5 ensures xs[..i + 1] == xs[..i] + [xs[i]] { }
    OneMoreKeyed(4, xs[..0], xs[0]);
    OneMoreKeyed(4, xs[..1], xs[1]);
    OneMoreKeyed(4, xs[..2], xs[2]);
    OneMoreKeyed(4, xs[..3], xs[3]);
    OneMoreKeyed(4, xs[..4], xs[4]);
    assert [] + [4] == [4];
  }

  lemma FrontJoined(version: bytes, id: bytes)
    ensures [1] + version + [2] + ([0x50] + id) == [1] + version + [2, 0x50] + id
  {
  }

  lemma BackJoined(head: bytes, time: bytes, node: bytes, sequence: bytes, config: bytes)
    ensures [4] + ([0x58, 0x20] + head) + [5] + time + [6] + ([0x58, 0x20] + node) + [7] + sequence + [8] + config
         == [4, 0x58, 0x20] + head + [5] + time + [6, 0x58, 0x20] + node + [7] + sequence + [8] + config
  {
    var a := [4, 0x58, 0x20] + head + [5] + time;
    assert [4] + ([0x58, 0x20] + head) + [5] + time == a;
    assert a + [6] + ([0x58, 0x20] + node) == a + [6, 0x58, 0x20] + node;
  }

  // ---------------------------------------------------------------------------------------------
  // Trees
  // ---------------------------------------------------------------------------------------------

  /** An entry: a file as type 0 with size and chunks, a directory as type 1 with a hash. */
  lemma EntryLayout(e: Entry)
    requires EntryFits(e)
    ensures e.File? ==>
              EntryBytes(e) == [0xA3, 1, 0, 2] + UintBytes(0, e.size) + [3] + UintBytes(4, |e.chunks|)
                  + CidsBytes(e.chunks)
    ensures e.Dir? ==> EntryBytes(e) == [0xA2, 1, 1, 2, 0x58, 0x20] + e.hash.raw
  {
    if e.File? { FileLayout(e.size, e.chunks); } else { DirLayout(e.hash); }
  }

  lemma SmallNumbers()
    ensures U64Bytes(0) == [0] && U64Bytes(1) == [1] && U64Bytes(2) == [2] && U64Bytes(3) == [3]
    ensures UintBytes(5, 2) == [0xA2] && UintBytes(5, 3) == [0xA3]
  {
  }

  lemma FileLayout(size: u64, chunks: seq<Cid>)
    requires Fits(|chunks|)
    ensures EntryBytes(File(size, chunks))
         == [0xA3, 1, 0, 2] + UintBytes(0, size) + [3] + UintBytes(4, |chunks|) + CidsBytes(chunks)
  {
    hide UintBytes, CidsBytes, U64Bytes;
    SmallNumbers();
    FileJoined(U64Bytes(size), UintBytes(4, |chunks|), CidsBytes(chunks));
    assert U64Bytes(size) == UintBytes(0, size) by { NumberBytes(size); }
  }

  lemma NumberBytes(v: u64)
    ensures U64Bytes(v) == UintBytes(0, v)
  {
  }

  lemma DirLayout(hash: Cid)
    ensures EntryBytes(Dir(hash)) == [0xA2, 1, 1, 2, 0x58, 0x20] + hash.raw
  {
    hide UintBytes, U64Bytes, BstrBytes;
    SmallNumbers();
    FixedStrings(hash.raw);
    DirJoined(hash.raw);
  }

  lemma FileJoined(size: bytes, n: bytes, cs: bytes)
    ensures [0xA3] + (([1] + [0]) + ([2] + size) + ([3] + (n + cs))) == [0xA3, 1, 0, 2] + size + [3] + n + cs
  {
  }

  lemma DirJoined(h: bytes)
    ensures [0xA2] + (([1] + [1]) + ([2] + ([0x58, 0x20] + h)) + []) == [0xA2, 1, 1, 2, 0x58, 0x20] + h
  {
  }

  /** A tree: the tree domain, a map with the one key 1, and under it the map of the entries. */
  lemma TreeLayout(t: TreeMap)
    requires Encodable(t)
    ensures PairsFit(Pairs(t))
    ensures TreeWire(t) == Ascii("soal/tree/v1") + [0, 0, 0, 0] + ([0xA1, 1] + UintBytes(5, |t|) + PairsBytes(Pairs(t)))
  {
    hide PairsBytes, Pairs, UintBytes;
    PairsOfFit(t);
    DomainsAre();
    HeadLayout(5, 1);
    HeadLayout(0, 1);
    assert [0xA1] + ([1] + UintBytes(5, |t|)) == [0xA1, 1] + UintBytes(5, |t|);
  }

  /** Its entries follow each other in the order of the paths, each behind its path. */
  lemma {:induction false} PairsLayout(l: seq<Pair>, i: nat)
    requires PairsFit(l) && i < |l|
    ensures PairsFit(l[..i]) && PairsFit(l[i + 1..]) && EntryFits(l[i].1)
    ensures PairsBytes(l)
         == PairsBytes(l[..i]) + (UintBytes(3, |l[i].0|) + l[i].0 + EntryBytes(l[i].1)) + PairsBytes(l[i + 1..])
    decreases i
  {
    hide UintBytes, EntryBytes;
    var here := UintBytes(3, |l[i].0|) + l[i].0 + EntryBytes(l[i].1);
    assert PairFits(l[i]) && PairBytes(l[i]) == here;
    if i == 0 {
      assert l[..0] == [] && PairsBytes(l[..0]) == [];
      assert [] + here == here;
    } else {
      PairsLayout(l[1..], i - 1);
      assert l[1..][..i - 1] == l[..i][1..] && l[1..][i - 1 + 1..] == l[i + 1..];
      assert l[..i][0] == l[0];
      Assoc(PairBytes(l[0]), PairsBytes(l[..i][1..]), here);
      Assoc(PairBytes(l[0]), PairsBytes(l[..i][1..]) + here, PairsBytes(l[i + 1..]));
    }
  }

  lemma PairsListed(t: TreeMap)
    ensures |Pairs(t)| == |SortedKeys(t.Keys)|
    ensures forall i :: 0 <= i < |Pairs(t)| ==>
              && Pairs(t)[i].0 in t && Pairs(t)[i].1 == t[Pairs(t)[i].0] && Pairs(t)[i].0 == SortedKeys(t.Keys)[i]
  {
    SortedListing(t.Keys);
  }
}
