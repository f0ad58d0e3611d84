/** The tree body of src/codec.rs: encoder, lenient decoder, round trip, injectivity, and the exact
    slack of the decoder. */
module TreeCodec {
  import opened Bytes
  import opened Paths
  import opened Trees
  import opened Cbor

  const ZERO := Cid(Zeros(32))
  const MAX_TREE_ENTRIES: nat := 1_000_000

  type Pair = (Path, Entry)

  // ---------------------------------------------------------------------------------------------
  // Encoding
  // ---------------------------------------------------------------------------------------------

  predicate EntryFits(e: Entry) { e.File? ==> Fits(|e.chunks|) }

  predicate PairFits(x: Pair) { Fits(|x.0|) && EntryFits(x.1) }

  /** What `encode_tree_body` accepts. Lengths beyond 64 bits stand for vectors no machine can hold. */
  predicate Encodable(t: TreeMap) {
    |t| <= MAX_TREE_ENTRIES && forall k :: k in t ==> PairFits((k, t[k]))
  }

  /** The option variables of the decoder's entry loop; also the fields an entry is written with. */
  datatype Fields = Fields(last: Option<u64>, kind: Option<u64>, size: Option<u64>, chunks: Option<seq<Cid>>,
      hash: Option<Cid>)

  predicate FieldsFit(st: Fields) { st.chunks.Some? ==> Fits(|st.chunks.value|) }

  function Field1(st: Fields): bytes {
    if st.kind.Some? then KeyU64(1, st.kind.value) else []
  }

  function Field2(st: Fields): bytes {
    if st.hash.Some? then KeyBstr(2, st.hash.value.raw)
    else if st.size.Some? then KeyU64(2, st.size.value) else []
  }

  function Field3(st: Fields): bytes
    requires FieldsFit(st)
  {
    if st.chunks.Some? then KeyCids(3, st.chunks.value) else []
  }

  function FieldsBytes(st: Fields): bytes
    requires FieldsFit(st)
  {
    Field1(st) + Field2(st) + Field3(st)
  }

  function FieldsOf(e: Entry): Fields {
    match e
    case File(size, chunks) => Fields(Some(3), Some(0), Some(size), Some(chunks), None)
    case Dir(hash) => Fields(Some(2), Some(1), None, None, Some(hash))
  }

  function FieldCount(e: Entry): nat { if e.File? then 3 else 2 }

  function EntryBytes(e: Entry): bytes
    requires EntryFits(e)
  {
    UintBytes(5, FieldCount(e)) + FieldsBytes(FieldsOf(e))
  }

  function PairBytes(x: Pair): bytes
    requires PairFits(x)
  {
    TstrBytes(x.0) + EntryBytes(x.1)
  }

  predicate PairsFit(l: seq<Pair>) { forall i :: 0 <= i < |l| ==> PairFits(l[i]) }

  function PairsBytes(l: seq<Pair>): bytes
    requires PairsFit(l)
  {
    if l == [] then [] else PairBytes(l[0]) + PairsBytes(l[1..])
  }

  /** A tree as the list its iterator gives. */
  function Pairs(t: TreeMap): (l: seq<Pair>)
    ensures |l| == |SortedKeys(t.Keys)|
  {
    var ks := SortedKeys(t.Keys);
    SortedListing(t.Keys);
    seq(|ks|, i requires 0 <= i < |ks| => (ks[i], t[ks[i]]))
  }

  function Preamble(n: nat): bytes
    requires n <= MAX_TREE_ENTRIES
  {
    UintBytes(5, 1) + (U64Bytes(1) + UintBytes(5, n))
  }

  /** The canonical body of a tree. */
  function TreeBody(t: TreeMap): bytes
    requires Encodable(t)
  {
    PairsOfFit(t);
    Preamble(|t|) + PairsBytes(Pairs(t))
  }

  lemma PairsOfFit(t: TreeMap)
    requires Encodable(t)
    ensures PairsFit(Pairs(t)) && |Pairs(t)| == |t|
  {
    var ks := SortedKeys(t.Keys);
    SortedListing(t.Keys);
    ListingSize(ks, t.Keys);
    forall i | 0 <= i < |Pairs(t)| ensures PairFits(Pairs(t)[i]) {
      assert ks[i] in t.Keys;
    }
  }

  lemma {:induction false} ListingSize(ks: seq<Path>, s: set<Path>)
    requires Listing(ks, s)
    ensures |ks| == |s|
    decreases |ks|
  {
    if ks == [] {
      assert s == {};
    } else {
      assert ks[0] in s;
      var rest := ks[1..];
      assert forall k :: k in s && k != ks[0] ==> k in rest;
      assert forall i :: 0 <= i < |rest| ==> rest[i] == ks[i + 1] && ks[i + 1] != ks[0];
      ListingSize(rest, s - {ks[0]});
    }
  }

  /** `encode_tree_body` */
  method EncodeTreeBody(t: TreeMap) returns (r: Result<bytes, CodecError>)
    ensures Encodable(t) ==> r == Ok(TreeBody(t))
    ensures !Encodable(t) ==> r == Err(if |t| > MAX_TREE_ENTRIES then TooMany else TooLong)
  {
    if |t| > MAX_TREE_ENTRIES {
      return Err(TooMany);
    }
    if !Encodable(t) {
      return Err(TooLong);
    }
    PairsOfFit(t);
    var buf := new Buffer();
    buf.PushUint(5, 1);
    buf.WriteU64(1);
    buf.PushUint(5, |t|);
    assert buf.data == Preamble(|t|) by {
      assert [] + UintBytes(5, 1) == UintBytes(5, 1);
      Assoc(UintBytes(5, 1), U64Bytes(1), UintBytes(5, |t|));
    }
    var ks := SortedKeys(t.Keys);
    SortedListing(t.Keys);
    WritePairs(buf, t, ks, Pairs(t));
    r := Ok(buf.data);
  }

  /** The loop over the entries, which the iterator gives in key order. */
  method WritePairs(buf: Buffer, t: TreeMap, ks: seq<Path>, ghost l: seq<Pair>)
    requires PairsFit(l) && |l| == |ks|
    requires forall i :: 0 <= i < |ks| ==> ks[i] in t && l[i] == (ks[i], t[ks[i]])
    modifies buf
    ensures buf.data == old(buf.data) + PairsBytes(l)
  {
    for i := 0 to |ks|
      invariant buf.data + PairsBytes(l[i..]) == old(buf.data) + PairsBytes(l)
    {
      ghost var before := buf.data;
      assert l[i..][0] == l[i] && l[i..][1..] == l[i + 1..];
      assert PairFits(l[i]);
      buf.WriteTstr(ks[i]);
      WriteEntry(buf, t[ks[i]]);
      Assoc(before, TstrBytes(ks[i]), EntryBytes(t[ks[i]]));
      Assoc(before, PairBytes(l[i]), PairsBytes(l[i + 1..]));
    }
  }

  method WriteEntry(buf: Buffer, e: Entry)
    requires EntryFits(e)
    modifies buf
    ensures buf.data == old(buf.data) + EntryBytes(e)
  {
    ghost var start, st := buf.data, FieldsOf(e);
    match e {
      case File(size, chunks) =>
        buf.PushUint(5, 3);
        WriteKeyU64(buf, 1, 0);
        WriteKeyU64(buf, 2, size);
        WriteKeyCids(buf, 3, chunks);
      case Dir(hash) =>
        buf.PushUint(5, 2);
        WriteKeyU64(buf, 1, 1);
        WriteKeyBstr(buf, 2, hash.raw);
    }
    ghost var header := start + UintBytes(5, FieldCount(e));
    assert buf.data == header + Field1(st) + Field2(st) + Field3(st);
    Assoc(header, Field1(st), Field2(st));
    Assoc(header, Field1(st) + Field2(st), Field3(st));
    Assoc(start, UintBytes(5, FieldCount(e)), FieldsBytes(st));
  }

  // ---------------------------------------------------------------------------------------------
  // Decoding
  // ---------------------------------------------------------------------------------------------

  const NO_FIELDS := Fields(None, None, None, None, None)

  /** One key and its value. Key 2 is a hash when the type read before it is 1, and a size otherwise. */
  function ReadField(d: bytes, p: nat, st: Fields): (r: Read<Fields>)
    ensures r.Got? ==> p < r.next <= |d|
  {
    match ReadUint(d, p, 0)
    case Bad(e) => Bad(e)
    case Got(k, q) =>
      if st.last.Some? && k <= st.last.value then Bad(BadOrder)
      else if k == 1 then
        match ReadUint(d, q, 0) case Bad(e) => Bad(e) case Got(v, q') => Got(st.(last := Some(k), kind := Some(v)), q')
      else if k == 2 && st.kind == Some(1) then
        match ReadCid(d, q) case Bad(e) => Bad(e) case Got(c, q') => Got(st.(last := Some(k), hash := Some(c)), q')
      else if k == 2 then
        match ReadUint(d, q, 0) case Bad(e) => Bad(e) case Got(v, q') => Got(st.(last := Some(k), size := Some(v)), q')
      else if k == 3 then
        match ReadArray(d, q) case Bad(e) => Bad(e) case Got(cs, q') => Got(st.(last := Some(k), chunks := Some(cs)),
            q')
      else Bad(BadKey)
  }

  function ReadArray(d: bytes, p: nat): (r: Read<seq<Cid>>)
    ensures r.Got? ==> p < r.next <= |d| && Fits(|r.value|)
  {
    match ReadUint(d, p, 4)
    case Bad(e) => Bad(e)
    case Got(n, q) => ReadCids(d, q, n)
  }

  function ReadFields(d: bytes, p: nat, n: nat, st: Fields): (r: Read<Fields>)
    ensures r.Got? ==> p <= r.next && (p <= |d| ==> r.next <= |d|)
    decreases n
  {
    if n == 0 then Got(st, p)
    else match ReadField(d, p, st)
      case Bad(e) => Bad(e)
      case Got(st', q) => ReadFields(d, q, n - 1, st')
  }

  function EntryOf(st: Fields): Result<Entry, CodecError> {
    if st.kind == Some(0) then
      if st.size.None? || st.chunks.None? then Err(Missing) else Ok(File(st.size.value, st.chunks.value))
    else if st.kind == Some(1) then
      if st.hash.None? then Err(Missing) else Ok(Dir(st.hash.value))
    else Err(BadType)
  }

  function ReadEntry(d: bytes, p: nat): (r: Read<Entry>)
    ensures r.Got? ==> p < r.next <= |d|
  {
    match ReadUint(d, p, 5)
    case Bad(e) => Bad(e)
    case Got(n, q) =>
      match ReadFields(d, q, n, NO_FIELDS)
      case Bad(e) => Bad(e)
      case Got(st, q') => match EntryOf(st) case Err(e) => Bad(e) case Ok(e) => Got(e, q')
  }

  function ReadPair(d: bytes, p: nat, last: Option<Path>): (r: Read<Pair>)
    ensures r.Got? ==> p < r.next <= |d|
  {
    match ReadTstr(d, p)
    case Bad(e) => Bad(e)
    case Got(path, q) =>
      if last.Some? && !Less(last.value, path) then Bad(BadOrder)
      else if !ValidPath(path) then Bad(BadPath)
      else match ReadEntry(d, q) case Bad(e) => Bad(e) case Got(e, q') => Got((path, e), q')
  }

  function ReadPairs(d: bytes, p: nat, n: nat, last: Option<Path>): (r: Read<seq<Pair>>)
    ensures r.Got? ==> p <= r.next && (p <= |d| ==> r.next <= |d|) && |r.value| == n
    decreases n
  {
    if n == 0 then Got([], p)
    else match ReadPair(d, p, last)
      case Bad(e) => Bad(e)
      case Got(x, q) => Prepend([x], ReadPairs(d, q, n - 1, Some(x.0)))
  }

  /** Inserting pairs in order. */
  function MapOf(l: seq<Pair>): TreeMap {
    if l == [] then map[] else MapOf(l[..|l| - 1])[l[|l| - 1].0 := l[|l| - 1].1]
  }

  function ReadPreamble(d: bytes): (r: Read<nat>)
    ensures r.Got? ==> r.next <= |d| && r.value <= MAX_TREE_ENTRIES
  {
    match ReadUint(d, 0, 5)
    case Bad(e) => Bad(e)
    case Got(n, p) =>
      if n != 1 then Bad(BadKeyCount)
      else match ReadUint(d, p, 0)
        case Bad(e) => Bad(e)
        case Got(k, q) =>
          if k != 1 then Bad(BadKey)
          else match ReadUint(d, q, 5)
            case Bad(e) => Bad(e)
            case Got(m, q') => if m > MAX_TREE_ENTRIES then Bad(TooMany) else Got(m, q')
  }

  /** The pairs of a body, in wire order. */
  function ReadBody(d: bytes): Result<seq<Pair>, CodecError> {
    match ReadPreamble(d)
    case Bad(e) => Err(e)
    case Got(n, p) =>
      match ReadPairs(d, p, n, None)
      case Bad(e) => Err(e)
      case Got(l, q) => if q != |d| then Err(Trailing) else Ok(l)
  }

  /** `decode_tree_body` */
  function DecodeTree(d: bytes): Result<TreeMap, CodecError> {
    match ReadBody(d)
    case Err(e) => Err(e)
    case Ok(l) => Ok(MapOf(l))
  }

  /** The decoder's loops, over a cursor. */
  method DecodeTreeBody(data: bytes) returns (r: Result<TreeMap, CodecError>)
    ensures r == DecodeTree(data)
  {
    var cur := new Cursor(data);
    var n := cur.ExpectUint(5);
    if n.Err? { return Err(n.error); }
    if n.value != 1 { return Err(BadKeyCount); }
    var key := cur.ExpectUint(0);
    if key.Err? { return Err(key.error); }
    if key.value != 1 { return Err(BadKey); }
    var m := cur.ExpectUint(5);
    if m.Err? { return Err(m.error); }
    if m.value > MAX_TREE_ENTRIES { return Err(TooMany); }
    var tree := DecodePairs(cur, m.value);
    if tree.Err? { return Err(tree.error); }
    if cur.pos != |data| { return Err(Trailing); }
    r := tree;
  }

  method DecodePairs(cur: Cursor, n: nat) returns (r: Result<TreeMap, CodecError>)
    modifies cur
    ensures match ReadPairs(cur.data, old(cur.pos), n, None)
            case Bad(e) => r == Err(e)
            case Got(l, q) => r == Ok(MapOf(l)) && cur.pos == q
  {
    hide ReadTstr, ReadEntry, Less, ValidPath;
    var tree: TreeMap := map[];
    var last: Option<Path> := None;
    ghost var l: seq<Pair>, whole := [], ReadPairs(cur.data, cur.pos, n, None);
    PrependNone(whole);
    for i := 0 to n
      invariant tree == MapOf(l)
      invariant whole == Prepend(l, ReadPairs(cur.data, cur.pos, n - i, last))
    {
      ghost var here, before := cur.pos, last;
      var path := cur.ReadTextString();
      if path.Err? { return Err(path.error); }
      if last.Some? && !Less(last.value, path.value) { return Err(BadOrder); }
      if !ValidPath(path.value) { return Err(BadPath); }
      var e := DecodeEntry(cur);
      if e.Err? { return Err(e.error); }
      last := Some(path.value);
      tree := tree[path.value := e.value];
      ghost var x := (path.value, e.value);
      assert ReadPair(cur.data, here, before) == Got(x, cur.pos);
      PrependTwice(l, [x], ReadPairs(cur.data, cur.pos, n - i - 1, last));
      assert (l + [x])[..|l|] == l;
      l := l + [x];
    }
    assert l + [] == l;
    r := Ok(tree);
  }

  method DecodeEntry(cur: Cursor) returns (r: Result<Entry, CodecError>)
    modifies cur
    ensures cur.Did(ReadEntry(cur.data, old(cur.pos)), r)
  {
    hide ReadHead, ReadField;
    var n := cur.ExpectUint(5);
    if n.Err? { return Err(n.error); }
    var st := NO_FIELDS;
    ghost var whole := ReadFields(cur.data, cur.pos, n.value, st);
    for i := 0 to n.value
      invariant whole == ReadFields(cur.data, cur.pos, n.value - i, st)
    {
      var f := DecodeField(cur, st);
      if f.Err? { return Err(f.error); }
      st := f.value;
    }
    r := EntryOf(st);
  }

  method DecodeField(cur: Cursor, st: Fields) returns (r: Result<Fields, CodecError>)
    modifies cur
    ensures cur.Did(ReadField(cur.data, old(cur.pos), st), r)
  {
    var k := cur.ExpectUint(0);
    if k.Err? { return Err(k.error); }
    if st.last.Some? && k.value <= st.last.value { return Err(BadOrder); }
    var st' := st.(last := Some(k.value));
    if k.value == 1 {
      var v := cur.ExpectUint(0);
      if v.Err? { return Err(v.error); }
      r := Ok(st'.(kind := Some(v.value)));
    } else if k.value == 2 && st.kind == Some(1) {
      var h := cur.ReadFixedString(32);
      if h.Err? { return Err(h.error); }
      r := Ok(st'.(hash := Some(Cid(h.value))));
    } else if k.value == 2 {
      var v := cur.ExpectUint(0);
      if v.Err? { return Err(v.error); }
      r := Ok(st'.(size := Some(v.value)));
    } else if k.value == 3 {
      var n := cur.ExpectUint(4);
      if n.Err? { return Err(n.error); }
      var cs := cur.ReadCidList(n.value);
      if cs.Err? { return Err(cs.error); }
      r := Ok(st'.(chunks := Some(cs.value)));
    } else {
      r := Err(BadKey);
    }
  }

  // ---------------------------------------------------------------------------------------------
  // A tree is the list of its pairs in key order
  // ---------------------------------------------------------------------------------------------

  /** The keys of `l` are strictly increasing, all after `last`. */
  ghost predicate SortedAfter(l: seq<Pair>, last: Option<Path>) {
    && (forall i, j :: 0 <= i < j < |l| ==> Less(l[i].0, l[j].0))
    && (last.Some? ==> forall i :: 0 <= i < |l| ==> Less(last.value, l[i].0))
  }

  lemma SortedCons(x: Pair, l: seq<Pair>, last: Option<Path>)
    requires SortedAfter(l, Some(x.0)) && (last.Some? ==> Less(last.value, x.0))
    ensures SortedAfter([x] + l, last)
  {
    if last.Some? {
      forall i | 0 <= i < |l| ensures Less(last.value, l[i].0) {
        LessTransitive(last.value, x.0, l[i].0);
      }
    }
  }

  function Keys(l: seq<Pair>): (ks: seq<Path>)
    ensures |ks| == |l|
  {
    seq(|l|, i requires 0 <= i < |l| => l[i].0)
  }

  lemma {:induction false} MapOfSorted(l: seq<Pair>)
    requires SortedAfter(l, None)
    ensures forall i :: 0 <= i < |l| ==> l[i].0 in MapOf(l) && MapOf(l)[l[i].0] == l[i].1
    ensures forall k :: k in MapOf(l) ==> k in Keys(l)
    decreases |l|
  {
    if l != [] {
      var front, x := l[..|l| - 1], l[|l| - 1];
      MapOfSorted(front);
      forall i | 0 <= i < |l| - 1 ensures l[i].0 != x.0 && front[i] == l[i] {
        LessIrreflexive(x.0);
      }
      assert forall k :: k in Keys(front) ==> k in Keys(l) by {
        assert forall i :: 0 <= i < |front| ==> Keys(front)[i] == Keys(l)[i];
      }
      assert Keys(l)[|l| - 1] == x.0;
    }
  }

  /** Listing the tree built from a sorted list gives that list back. */
  lemma PairsOfMapOf(l: seq<Pair>)
    requires SortedAfter(l, None)
    ensures Pairs(MapOf(l)) == l
  {
    var t, ks := MapOf(l), Keys(l);
    MapOfSorted(l);
    assert KeyOrder(ks, t.Keys);
    SortedKeysInOrder(t.Keys);
    KeyOrderUnique(SortedKeys(t.Keys), ks, t.Keys);
  }

  lemma PairsAre(t: TreeMap)
    ensures SortedAfter(Pairs(t), None) && MapOf(Pairs(t)) == t
    ensures WireTree(t) ==> forall i :: 0 <= i < |Pairs(t)| ==> WirePath(Pairs(t)[i].0)
  {
    var ks, l := SortedKeys(t.Keys), Pairs(t);
    SortedKeysInOrder(t.Keys);
    MapOfSorted(l);
    assert Keys(l) == ks;
    forall k | k in t ensures k in MapOf(l) && MapOf(l)[k] == t[k] {
      var i :| 0 <= i < |ks| && ks[i] == k;
      assert l[i] == (k, t[k]);
    }
    assert forall i :: 0 <= i < |l| ==> l[i].0 in t;
  }

  // ---------------------------------------------------------------------------------------------
  // Round trip
  // ---------------------------------------------------------------------------------------------

  lemma KeyU64RoundTrip(d: bytes, p: nat, k: u64, v: u64)
    requires At(d, p, KeyU64(k, v))
    ensures ReadUint(d, p, 0) == Got(k, p + |U64Bytes(k)|)
    ensures ReadUint(d, p + |U64Bytes(k)|, 0) == Got(v, p + |KeyU64(k, v)|)
  {
    hide At, ReadHead, UintBytes;
    AtConcat(d, p, U64Bytes(k), U64Bytes(v));
    HeadRoundTrip(d, p, 0, k);
    HeadRoundTrip(d, p + |U64Bytes(k)|, 0, v);
  }

  lemma HashFieldRoundTrip(d: bytes, p: nat, c: Cid)
    requires At(d, p, KeyBstr(2, c.raw))
    ensures ReadUint(d, p, 0) == Got(2, p + |U64Bytes(2)|)
    ensures ReadCid(d, p + |U64Bytes(2)|) == Got(c, p + |KeyBstr(2, c.raw)|)
  {
    hide At, ReadHead, UintBytes, ReadCid;
    AtConcat(d, p, U64Bytes(2), CidBytes(c));
    HeadRoundTrip(d, p, 0, 2);
    CidRoundTrip(d, p + |U64Bytes(2)|, c);
  }

  lemma KeyCidsRoundTrip(d: bytes, p: nat, k: u64, cs: seq<Cid>)
    requires Fits(|cs|) && At(d, p, KeyCids(k, cs))
    ensures ReadUint(d, p, 0) == Got(k, p + |U64Bytes(k)|)
    ensures ReadArray(d, p + |U64Bytes(k)|) == Got(cs, p + |KeyCids(k, cs)|)
  {
    hide At, ReadHead, UintBytes, ReadCids, CidsBytes;
    AtConcat(d, p, U64Bytes(k), UintBytes(4, |cs|) + CidsBytes(cs));
    HeadRoundTrip(d, p, 0, k);
    var q := p + |U64Bytes(k)|;
    AtConcat(d, q, UintBytes(4, |cs|), CidsBytes(cs));
    HeadRoundTrip(d, q, 4, |cs|);
    CidsRoundTrip(d, q + |UintBytes(4, |cs|)|, cs);
  }

  lemma FileFieldsRoundTrip(d: bytes, p: nat, size: u64, chunks: seq<Cid>)
    requires Fits(|chunks|) && At(d, p, FieldsBytes(FieldsOf(File(size, chunks))))
    ensures ReadFields(d, p, 3, NO_FIELDS)
              == Got(FieldsOf(File(size, chunks)), p + |FieldsBytes(FieldsOf(File(size, chunks)))|)
  {
    hide At, ReadUint, ReadArray, U64Bytes, KeyU64, KeyCids;
    var a, b, c := KeyU64(1, 0), KeyU64(2, size), KeyCids(3, chunks);
    AtConcat(d, p, a + b, c);
    AtConcat(d, p, a, b);
    var p1, p2 := p + |a|, p + |a| + |b|;
    KeyU64RoundTrip(d, p, 1, 0);
    KeyU64RoundTrip(d, p1, 2, size);
    KeyCidsRoundTrip(d, p2, 3, chunks);
    var s1 := NO_FIELDS.(last := Some(1), kind := Some(0));
    var s2 := s1.(last := Some(2), size := Some(size));
    assert ReadFields(d, p, 3, NO_FIELDS) == ReadFields(d, p1, 2, s1);
    assert ReadFields(d, p1, 2, s1) == ReadFields(d, p2, 1, s2);
  }

  lemma DirFieldsRoundTrip(d: bytes, p: nat, hash: Cid)
    requires At(d, p, FieldsBytes(FieldsOf(Dir(hash))))
    ensures ReadFields(d, p, 2, NO_FIELDS) == Got(FieldsOf(Dir(hash)), p + |FieldsBytes(FieldsOf(Dir(hash)))|)
  {
    hide At, ReadUint, ReadCid, U64Bytes, KeyU64, KeyBstr;
    var a, b := KeyU64(1, 1), KeyBstr(2, hash.raw);
    AtConcat(d, p, a + b, []);
    AtConcat(d, p, a, b);
    KeyU64RoundTrip(d, p, 1, 1);
    HashFieldRoundTrip(d, p + |a|, hash);
    var s1 := NO_FIELDS.(last := Some(1), kind := Some(1));
    assert ReadFields(d, p, 2, NO_FIELDS) == ReadFields(d, p + |a|, 1, s1);
  }

  lemma EntryRoundTrip(d: bytes, p: nat, e: Entry)
    requires EntryFits(e) && At(d, p, EntryBytes(e))
    ensures ReadEntry(d, p) == Got(e, p + |EntryBytes(e)|)
  {
    hide At, ReadHead, UintBytes, ReadFields, FieldsBytes;
    var header := UintBytes(5, FieldCount(e));
    AtConcat(d, p, header, FieldsBytes(FieldsOf(e)));
    HeadRoundTrip(d, p, 5, FieldCount(e));
    match e {
      case File(size, chunks) => FileFieldsRoundTrip(d, p + |header|, size, chunks);
      case Dir(hash) => DirFieldsRoundTrip(d, p + |header|, hash);
    }
  }

  lemma {:induction false} PairsRoundTrip(d: bytes, p: nat, l: seq<Pair>, last: Option<Path>)
    requires PairsFit(l) && At(d, p, PairsBytes(l)) && SortedAfter(l, last)
    requires forall i :: 0 <= i < |l| ==> WirePath(l[i].0)
    ensures ReadPairs(d, p, |l|, last) == Got(l, p + |PairsBytes(l)|)
    decreases |l|
  {
    hide At, ReadTstr, TstrBytes, ReadEntry, EntryBytes, Less, ValidUtf8, ValidPath;
    if l != [] {
      var x := l[0];
      AtConcat(d, p, PairBytes(x), PairsBytes(l[1..]));
      AtConcat(d, p, TstrBytes(x.0), EntryBytes(x.1));
      TstrRoundTrip(d, p, x.0);
      EntryRoundTrip(d, p + |TstrBytes(x.0)|, x.1);
      PairsRoundTrip(d, p + |PairBytes(x)|, l[1..], Some(x.0));
      assert l == [x] + l[1..];
    }
  }

  /** Decoding the encoding of a tree gives the tree, with no byte left over. */
  lemma TreeRoundTrip(t: TreeMap)
    requires WireTree(t) && Encodable(t)
    ensures DecodeTree(TreeBody(t)) == Ok(t)
  {
    hide ReadPreamble, ReadPairs, PairsBytes, Preamble, Less, WirePath;
    var d, l := TreeBody(t), Pairs(t);
    PairsOfFit(t);
    PairsAre(t);
    assert At(d, 0, d);
    AtConcat(d, 0, Preamble(|t|), PairsBytes(l));
    PreambleRoundTrip(d, |t|);
    PairsRoundTrip(d, |Preamble(|t|)|, l, None);
  }

  lemma PreambleRoundTrip(d: bytes, n: nat)
    requires n <= MAX_TREE_ENTRIES && At(d, 0, Preamble(n))
    ensures ReadPreamble(d) == Got(n, |Preamble(n)|)
  {
    AtConcat(d, 0, UintBytes(5, 1), U64Bytes(1) + UintBytes(5, n));
    AtConcat(d, |UintBytes(5, 1)|, U64Bytes(1), UintBytes(5, n));
    HeadRoundTrip(d, 0, 5, 1);
    HeadRoundTrip(d, |UintBytes(5, 1)|, 0, 1);
    HeadRoundTrip(d, |UintBytes(5, 1)| + |U64Bytes(1)|, 5, n);
  }

  /** Distinct trees have distinct bodies. */
  lemma TreeBodyInjective(a: TreeMap, b: TreeMap)
    requires WireTree(a) && Encodable(a) && WireTree(b) && Encodable(b)
    requires TreeBody(a) == TreeBody(b)
    ensures a == b
  {
    TreeRoundTrip(a);
    TreeRoundTrip(b);
  }

  // ---------------------------------------------------------------------------------------------
  // Slack of the decoder
  // ---------------------------------------------------------------------------------------------

  function One<T>(x: Option<T>): nat { if x.Some? then 1 else 0 }

  function FieldTotal(st: Fields): nat { One(st.kind) + One(st.size) + One(st.hash) + One(st.chunks) }

  /** Keys come in increasing order, and key 2 is a hash only after type 1. */
  predicate InOrder(st: Fields) {
    && FieldsFit(st)
    && (st.last.Some? ==> 1 <= st.last.value <= 3)
    && (st.kind.Some? ==> st.last.Some?)
    && (st.size.Some? || st.hash.Some? ==> st.last.Some? && st.last.value >= 2)
    && (st.chunks.Some? ==> st.last == Some(3))
    && (st.hash.Some? ==> st.kind == Some(1) && st.size.None?)
  }

  /** Setting the field of a later key appends its bytes. */
  lemma FieldsAppend(st: Fields, k: u64, v: u64, h: Cid, cs: seq<Cid>)
    requires InOrder(st) && (st.last.Some? ==> st.last.value < k) && Fits(|cs|)
    ensures k == 1 ==> FieldsBytes(st.(kind := Some(v))) == FieldsBytes(st) + KeyU64(1, v)
    ensures k == 2 ==> FieldsBytes(st.(size := Some(v))) == FieldsBytes(st) + KeyU64(2, v)
    ensures k == 2 ==> FieldsBytes(st.(hash := Some(h))) == FieldsBytes(st) + KeyBstr(2, h.raw)
    ensures k == 3 ==> FieldsBytes(st.(chunks := Some(cs))) == FieldsBytes(st) + KeyCids(3, cs)
  {
    hide KeyU64, KeyBstr, KeyCids;
  }

  /** The bytes of the key and value a step has read. */
  function StepBytes(st: Fields): bytes
    requires FieldsFit(st)
  {
    if st.last == Some(1) then Field1(st) else if st.last == Some(2) then Field2(st) else Field3(st)
  }

  lemma StepSlack(d: bytes, p: nat, st: Fields)
    requires InOrder(st) && ReadField(d, p, st).Got?
    ensures var r := ReadField(d, p, st);
            InOrder(r.value) && Slack(d, p, r.next, StepBytes(r.value)) && FieldTotal(r.value) == FieldTotal(st) + 1
  {
    hide Slack, ReadHead, ReadCids, UintBytes, CidsBytes;
    var r, k := ReadField(d, p, st), ReadUint(d, p, 0);
    UintSlack(d, p, 0);
    if k.value == 3 {
      ArraySlack(d, k.next);
      SlackConcat(d, p, k.next, r.next, U64Bytes(3),
          UintBytes(4, |r.value.chunks.value|) + CidsBytes(r.value.chunks.value));
    } else if k.value == 2 && st.kind == Some(1) {
      CidSlack(d, k.next);
      SlackConcat(d, p, k.next, r.next, U64Bytes(2), CidBytes(r.value.hash.value));
    } else {
      UintSlack(d, k.next, 0);
      SlackConcat(d, p, k.next, r.next, U64Bytes(k.value), U64Bytes(ReadUint(d, k.next, 0).value));
    }
  }

  lemma FieldSlack(d: bytes, start: nat, p: nat, st: Fields)
    requires InOrder(st) && Slack(d, start, p, FieldsBytes(st)) && ReadField(d, p, st).Got?
    ensures var r := ReadField(d, p, st);
            InOrder(r.value) && Slack(d, start, r.next, FieldsBytes(r.value))
                && FieldTotal(r.value) == FieldTotal(st) + 1
  {
    hide Slack, ReadUint, ReadCid, ReadArray, KeyU64, KeyBstr, KeyCids;
    StepSlack(d, p, st);
    var r := ReadField(d, p, st);
    SlackConcat(d, start, p, r.next, FieldsBytes(st), StepBytes(r.value));
    var v := if r.value.last == Some(1) then r.value.kind else r.value.size;
    FieldsAppend(st, r.value.last.value, v.GetOr(0), r.value.hash.GetOr(ZERO), r.value.chunks.GetOr([]));
  }

  lemma ArraySlack(d: bytes, p: nat)
    requires ReadArray(d, p).Got?
    ensures var r := ReadArray(d, p); Slack(d, p, r.next, UintBytes(4, |r.value|) + CidsBytes(r.value))
  {
    hide Slack, ReadHead, ReadCids, UintBytes, CidsBytes;
    var n, r := ReadUint(d, p, 4), ReadArray(d, p);
    UintSlack(d, p, 4);
    CidsSlack(d, n.next, n.value);
    SlackConcat(d, p, n.next, r.next, UintBytes(4, n.value), CidsBytes(r.value));
  }

  lemma {:induction false} FieldsSlack(d: bytes, start: nat, p: nat, n: nat, st: Fields)
    requires InOrder(st) && Slack(d, start, p, FieldsBytes(st)) && ReadFields(d, p, n, st).Got?
    ensures var r := ReadFields(d, p, n, st);
            InOrder(r.value) && Slack(d, start, r.next, FieldsBytes(r.value))
                && FieldTotal(r.value) == FieldTotal(st) + n
    decreases n
  {
    hide Slack, ReadField, FieldsBytes, InOrder;
    if n > 0 {
      FieldSlack(d, start, p, st);
      var f := ReadField(d, p, st);
      FieldsSlack(d, start, f.next, n - 1, f.value);
    }
  }

  /** The fields an entry keeps are those it was read from, but for the ignored key 3 of a directory. */
  lemma KeptFields(st: Fields, e: Entry)
    requires InOrder(st) && EntryOf(st) == Ok(e)
    ensures EntryFits(e)
    ensures FieldTotal(st) == FieldCount(e) ==> FieldsBytes(FieldsOf(e)) == FieldsBytes(st)
    ensures FieldTotal(st) != FieldCount(e) ==> |FieldsBytes(FieldsOf(e))| < |FieldsBytes(st)|
    ensures FieldTotal(st) < 24
  {
    var kept := FieldsOf(e);
    assert Field1(kept) == Field1(st) && Field2(kept) == Field2(st);
  }

  lemma EntrySlack(d: bytes, p: nat)
    requires ReadEntry(d, p).Got?
    ensures var r := ReadEntry(d, p); EntryFits(r.value) && Slack(d, p, r.next, EntryBytes(r.value))
  {
    hide Slack, ReadHead, UintBytes, ReadFields;
    var n, r := ReadUint(d, p, 5), ReadEntry(d, p);
    UintSlack(d, p, 5);
    var f := ReadFields(d, n.next, n.value, NO_FIELDS);
    assert FieldsBytes(NO_FIELDS) == [];
    SlackNone(d, n.next);
    FieldsSlack(d, n.next, n.next, n.value, NO_FIELDS);
    KeptFields(f.value, r.value);
    SlackConcat(d, p, n.next, f.next, UintBytes(5, n.value), FieldsBytes(f.value));
    if n.value != FieldCount(r.value) {
      SlackLength(d, p, r.next, UintBytes(5, n.value) + FieldsBytes(f.value));
      SmallHeads(n.value, FieldCount(r.value));
      SlackShorter(d, p, r.next, EntryBytes(r.value));
    }
  }

  lemma SmallHeads(a: nat, b: nat)
    requires a < 24 && b < 24
    ensures |UintBytes(5, a)| == |UintBytes(5, b)| == 1
  {
  }

  lemma {:induction false} PairsSlack(d: bytes, p: nat, n: nat, last: Option<Path>)
    requires p <= |d| && ReadPairs(d, p, n, last).Got?
    ensures var r := ReadPairs(d, p, n, last);
            && PairsFit(r.value) && Slack(d, p, r.next, PairsBytes(r.value)) && SortedAfter(r.value, last)
            && forall i :: 0 <= i < n ==> WirePath(r.value[i].0)
    decreases n
  {
    hide Slack, ReadPair, PairBytes, Less, WirePath;
    if n == 0 {
      SlackNone(d, p);
    } else {
      var r, x := ReadPairs(d, p, n, last), ReadPair(d, p, last);
      PairSlack(d, p, last);
      PairsSlack(d, x.next, n - 1, Some(x.value.0));
      var rest := ReadPairs(d, x.next, n - 1, Some(x.value.0));
      assert r.value == [x.value] + rest.value && r.value[1..] == rest.value;
      SortedCons(x.value, rest.value, last);
      SlackConcat(d, p, x.next, r.next, PairBytes(x.value), PairsBytes(rest.value));
    }
  }

  lemma PairSlack(d: bytes, p: nat, last: Option<Path>)
    requires ReadPair(d, p, last).Got?
    ensures var r := ReadPair(d, p, last);
            && PairFits(r.value) && Slack(d, p, r.next, PairBytes(r.value))
            && WirePath(r.value.0) && (last.Some? ==> Less(last.value, r.value.0))
  {
    hide Slack, ReadHead, UintBytes, EntryBytes, ReadEntry, Less, ValidUtf8, ValidPath;
    var s, r := ReadTstr(d, p), ReadPair(d, p, last);
    TstrSlack(d, p);
    EntrySlack(d, s.next);
    SlackConcat(d, p, s.next, r.next, TstrBytes(r.value.0), EntryBytes(r.value.1));
  }

  /** Whatever body the decoder accepts, its tree re-encodes to no more bytes, and to as many only if
      the body was canonical. */
  lemma TreeSlack(d: bytes)
    requires DecodeTree(d).Ok?
    ensures var t := DecodeTree(d).value;
            && WireTree(t) && Encodable(t)
            && |TreeBody(t)| <= |d|
            && (|TreeBody(t)| == |d| <==> TreeBody(t) == d)
  {
    hide ReadPreamble, ReadPairs, PairsBytes, Preamble, Less, WirePath;
    var h, l := ReadPreamble(d), ReadBody(d).value;
    PreambleSlack(d);
    PairsSlack(d, h.next, h.value, None);
    var t := MapOf(l);
    MapOfSorted(l);
    PairsOfMapOf(l);
    SortedListing(t.Keys);
    ListingSize(SortedKeys(t.Keys), t.Keys);
    forall k | k in t ensures PairFits((k, t[k])) && WirePath(k) {
      var i :| 0 <= i < |l| && Keys(l)[i] == k;
      assert l[i] == (k, t[k]);
    }
    SlackConcat(d, 0, h.next, |d|, Preamble(|t|), PairsBytes(l));
    assert d[0..|d|] == d;
  }

  lemma PreambleSlack(d: bytes)
    requires ReadPreamble(d).Got?
    ensures var r := ReadPreamble(d); Slack(d, 0, r.next, Preamble(r.value))
  {
    hide Slack, ReadHead, UintBytes;
    var a := ReadUint(d, 0, 5);
    var b := ReadUint(d, a.next, 0);
    var c := ReadUint(d, b.next, 5);
    UintSlack(d, 0, 5);
    UintSlack(d, a.next, 0);
    UintSlack(d, b.next, 5);
    SlackConcat(d, a.next, b.next, c.next, U64Bytes(1), UintBytes(5, c.value));
    SlackConcat(d, 0, a.next, c.next, UintBytes(5, 1), U64Bytes(1) + UintBytes(5, c.value));
  }
}
