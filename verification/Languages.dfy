/** Exactly which bytes the decoders accept, said by positions in the input and without the decoders: item heads of any
    width, keys in order, and nothing else. */
module Languages {
  import opened Bytes
  import opened Trees
  import opened Cbor
  import opened Records
  import opened TreeCodec
  import opened Commits
  import opened Heads
  import opened Paths

  // ---------------------------------------------------------------------------------------------
  // Items
  // ---------------------------------------------------------------------------------------------

  /** From `p` to `q` stands a head with this major type and number, in one of the five widths. */
  predicate HeadAt(d: bytes, p: nat, q: nat, major: int, v: int) {
    && p < q <= |d|
    && (|| (q == p + 1 && d[p] == 32 * major + v && 0 <= v < 24)
        || (q == p + 2 && d[p] == 32 * major + 24 && v == FromBigEndian(d[p + 1..q]))
        || (q == p + 3 && d[p] == 32 * major + 25 && v == FromBigEndian(d[p + 1..q]))
        || (q == p + 5 && d[p] == 32 * major + 26 && v == FromBigEndian(d[p + 1..q]))
        || (q == p + 9 && d[p] == 32 * major + 27 && v == FromBigEndian(d[p + 1..q])))
  }

  lemma NumberIs(d: bytes, p: nat, major: int)
    ensures forall q: nat, v: u64 :: HeadAt(d, p, q, major, v) <==> ReadUint(d, p, major) == Got(v, q)
    ensures forall q: nat, v: int :: HeadAt(d, p, q, major, v) ==> Fits(v)
  {
    hide FromBigEndian;
    forall q: nat, v: int | HeadAt(d, p, q, major, v) ensures Fits(v) { NumberFits(d, p, q, major, v); }
  }

  lemma NumberFits(d: bytes, p: nat, q: nat, major: int, v: int)
    requires HeadAt(d, p, q, major, v)
    ensures Fits(v)
  {
    hide FromBigEndian;
    if q > p + 1 { WidthLeast(d[p + 1..q]); }
  }

  /** From `p` to `q` stands a string: a head with its length and its bytes. */
  predicate StringAt(d: bytes, p: nat, q: nat, major: int, s: bytes) {
    p + |s| <= q <= |d| && HeadAt(d, p, q - |s|, major, |s|) && d[q - |s|..q] == s
  }

  lemma BstrIs(d: bytes, p: nat)
    ensures forall q: nat, s: bytes :: StringAt(d, p, q, 2, s) <==> ReadBstr(d, p) == Got(s, q)
  {
    hide ReadUint, HeadAt;
    NumberIs(d, p, 2);
  }

  lemma TstrIs(d: bytes, p: nat)
    ensures forall q: nat, s: bytes :: StringAt(d, p, q, 3, s) && ValidUtf8(s) <==> ReadTstr(d, p) == Got(s, q)
  {
    hide ReadUint, HeadAt;
    NumberIs(d, p, 3);
  }

  /** One 32-byte string after the other. */
  ghost predicate CidsAt(d: bytes, p: nat, q: nat, cs: seq<Cid>)
    decreases |cs|
  {
    if cs == [] then p == q else exists m: nat :: StringAt(d, p, m, 2, cs[0].raw) && CidsAt(d, m, q, cs[1..])
  }

  lemma {:induction false} CidsAre(d: bytes, p: nat, q: nat, cs: seq<Cid>)
    ensures CidsAt(d, p, q, cs) <==> ReadCids(d, p, |cs|) == Got(cs, q)
    decreases |cs|
  {
    hide StringAt, ReadBstr;
    if cs != [] {
      BstrIs(d, p);
      var x := ReadCid(d, p);
      if x.Got? { CidsAre(d, x.next, q, cs[1..]); }
      assert cs == [cs[0]] + cs[1..];
    }
  }

  /** An array header and the hashes. */
  ghost predicate ArrayAt(d: bytes, p: nat, q: nat, cs: seq<Cid>) {
    exists m: nat :: HeadAt(d, p, m, 4, |cs|) && CidsAt(d, m, q, cs)
  }

  lemma ArrayIs(d: bytes, p: nat)
    ensures forall q: nat, cs: seq<Cid> :: ArrayAt(d, p, q, cs) <==> ReadArray(d, p) == Got(cs, q)
  {
    hide HeadAt, ReadUint, CidsAt, ReadCids;
    NumberIs(d, p, 4);
    forall q: nat, cs: seq<Cid> ensures ArrayAt(d, p, q, cs) <==> ReadArray(d, p) == Got(cs, q) {
      if m: nat :| HeadAt(d, p, m, 4, |cs|) && CidsAt(d, m, q, cs) { CidsAre(d, m, q, cs); }
      if ReadArray(d, p) == Got(cs, q) {
        var n := ReadUint(d, p, 4);
        CidsAre(d, n.next, q, cs);
        assert HeadAt(d, p, n.next, 4, |cs|);
      }
    }
  }

  // ---------------------------------------------------------------------------------------------
  // Trees
  // ---------------------------------------------------------------------------------------------

  /** A file: a map of three with type 0 under 1, the size under 2, the chunks under 3. */
  ghost predicate FileAt(d: bytes, ps: seq<nat>, size: u64, chunks: seq<Cid>) {
    && |ps| == 8 && HeadAt(d, ps[0], ps[1], 5, 3)
    && HeadAt(d, ps[1], ps[2], 0, 1) && HeadAt(d, ps[2], ps[3], 0, 0)
    && HeadAt(d, ps[3], ps[4], 0, 2) && HeadAt(d, ps[4], ps[5], 0, size)
    && HeadAt(d, ps[5], ps[6], 0, 3) && ArrayAt(d, ps[6], ps[7], chunks)
  }

  /** A directory: type 1 under 1, the hash under 2, and possibly chunks under 3, which are dropped. */
  ghost predicate DirAt(d: bytes, ps: seq<nat>, hash: Cid) {
    && (|ps| == 6 || |ps| == 8) && HeadAt(d, ps[0], ps[1], 5, if |ps| == 6 then 2 else 3)
    && HeadAt(d, ps[1], ps[2], 0, 1) && HeadAt(d, ps[2], ps[3], 0, 1)
    && HeadAt(d, ps[3], ps[4], 0, 2) && StringAt(d, ps[4], ps[5], 2, hash.raw)
    && (|ps| == 8 ==> HeadAt(d, ps[5], ps[6], 0, 3) && exists cs :: ArrayAt(d, ps[6], ps[7], cs))
  }

  ghost predicate EntryAt(d: bytes, p: nat, q: nat, e: Entry) {
    exists ps: seq<nat> :: |ps| > 0 && ps[0] == p && ps[|ps| - 1] == q && EntryAlong(d, ps, e)
  }

  ghost predicate EntryAlong(d: bytes, ps: seq<nat>, e: Entry) {
    if e.File? then FileAt(d, ps, e.size, e.chunks) else DirAt(d, ps, e.hash)
  }

  lemma {:induction false} KindStays(d: bytes, p: nat, n: nat, st: Fields)
    requires st.last.Some? && st.last.value >= 1 && ReadFields(d, p, n, st).Got?
    ensures ReadFields(d, p, n, st).value.kind == st.kind
    ensures st.last.value >= 3 ==> n == 0
    decreases n
  {
    hide ReadUint, ReadCid, ReadArray;
    if n > 0 {
      var f := ReadField(d, p, st);
      KindStays(d, f.next, n - 1, f.value);
    }
  }

  lemma EntryRead(d: bytes, p: nat) returns (ps: seq<nat>)
    requires ReadEntry(d, p).Got?
    ensures |ps| > 0 && ps[0] == p && ps[|ps| - 1] == ReadEntry(d, p).next
    ensures EntryAlong(d, ps, ReadEntry(d, p).value)
  {
    hide ReadUint, ReadCid, ReadArray, HeadAt, StringAt, ArrayAt;
    var n := ReadUint(d, p, 5);
    NumberIs(d, p, 5);
    assert n.value > 0;
    var k1, f1 := ReadUint(d, n.next, 0), ReadField(d, n.next, NO_FIELDS);
    KindStays(d, f1.next, n.value - 1, f1.value);
    assert k1.value == 1;
    NumberIs(d, n.next, 0);
    NumberIs(d, k1.next, 0);
    assert n.value > 1;
    var k2, f2 := ReadUint(d, f1.next, 0), ReadField(d, f1.next, f1.value);
    KindStays(d, f2.next, n.value - 2, f2.value);
    assert k2.value == 2;
    NumberIs(d, f1.next, 0);
    ps := [p, n.next, k1.next, f1.next, k2.next, f2.next];
    if f1.value.kind == Some(1) { CidIs(d, k2.next); } else { NumberIs(d, k2.next, 0); }
    if n.value > 2 {
      var k3, f3 := ReadUint(d, f2.next, 0), ReadField(d, f2.next, f2.value);
      KindStays(d, f3.next, n.value - 3, f3.value);
      NumberIs(d, f2.next, 0);
      ArrayIs(d, k3.next);
      ps := ps + [k3.next, f3.next];
      assert k3.value == 3;
      assert n.value == 3;
      assert f2.value.kind == f1.value.kind == f3.value.kind;
      assert ArrayAt(d, ps[6], ps[7], f3.value.chunks.value);
    }
  }

  lemma CidIs(d: bytes, p: nat)
    ensures forall q: nat, c: Cid :: StringAt(d, p, q, 2, c.raw) <==> ReadCid(d, p) == Got(c, q)
  {
    hide StringAt, ReadBstr;
    BstrIs(d, p);
  }

  lemma AlongIsRead(d: bytes, ps: seq<nat>, e: Entry)
    requires EntryAlong(d, ps, e)
    ensures |ps| > 0 && ReadEntry(d, ps[0]) == Got(e, ps[|ps| - 1])
  {
    hide ReadUint, ReadCid, ReadArray, HeadAt, StringAt, ArrayAt;
    NumberIs(d, ps[0], 5);
    NumberIs(d, ps[1], 0);
    NumberIs(d, ps[2], 0);
    NumberIs(d, ps[3], 0);
    if e.File? { NumberIs(d, ps[4], 0); } else { CidIs(d, ps[4]); }
    if |ps| == 8 {
      NumberIs(d, ps[5], 0);
      ArrayIs(d, ps[6]);
    }
  }

  /** An entry is read from where it stands, and from nowhere else. */
  lemma EntryIs(d: bytes, p: nat)
    ensures forall q: nat, e: Entry :: EntryAt(d, p, q, e) <==> ReadEntry(d, p) == Got(e, q)
  {
    hide ReadEntry, EntryAlong;
    forall q: nat, e: Entry ensures EntryAt(d, p, q, e) <==> ReadEntry(d, p) == Got(e, q) {
      if ps: seq<nat> :| |ps| > 0 && ps[0] == p && ps[|ps| - 1] == q && EntryAlong(d, ps, e) { AlongIsRead(d, ps, e); }
      if ReadEntry(d, p) == Got(e, q) { var ps := EntryRead(d, p); }
    }
  }

  /** A path and its entry. */
  ghost predicate PairAt(d: bytes, p: nat, q: nat, x: Pair) {
    exists m: nat :: StringAt(d, p, m, 3, x.0) && EntryAt(d, m, q, x.1)
  }

  ghost predicate PairsAt(d: bytes, p: nat, q: nat, l: seq<Pair>)
    decreases |l|
  {
    if l == [] then p == q else exists m: nat :: PairAt(d, p, m, l[0]) && PairsAt(d, m, q, l[1..])
  }

  lemma PairIs(d: bytes, p: nat, last: Option<Path>)
    ensures forall q: nat, x: Pair :: ReadPair(d, p, last) == Got(x, q) <==>
              PairAt(d, p, q, x) && WirePath(x.0) && (last.Some? ==> Less(last.value, x.0))
  {
    hide StringAt, ReadTstr, EntryAt, ReadEntry, Less, ValidPath, ValidUtf8;
    TstrIs(d, p);
    forall q: nat, x: Pair
      ensures ReadPair(d, p, last) == Got(x, q) <==>
                PairAt(d, p, q, x) && WirePath(x.0) && (last.Some? ==> Less(last.value, x.0))
    {
      if m: nat :| StringAt(d, p, m, 3, x.0) && EntryAt(d, m, q, x.1) { EntryIs(d, m); }
      if ReadPair(d, p, last) == Got(x, q) {
        var path := ReadTstr(d, p);
        EntryIs(d, path.next);
        assert StringAt(d, p, path.next, 3, x.0) && EntryAt(d, path.next, q, x.1);
      }
    }
  }

  /** Paths that follow each other, the first one after `last`. */
  ghost predicate Ordered(l: seq<Pair>, last: Option<Path>)
    decreases |l|
  {
    l != [] ==> WirePath(l[0].0) && (last.Some? ==> Less(last.value, l[0].0)) && Ordered(l[1..], Some(l[0].0))
  }

  lemma {:induction false} PairsAreRead(d: bytes, p: nat, q: nat, l: seq<Pair>, last: Option<Path>)
    ensures ReadPairs(d, p, |l|, last) == Got(l, q) <==> PairsAt(d, p, q, l) && Ordered(l, last)
    decreases |l|
  {
    hide PairAt, ReadPair, Less, WirePath;
    if l != [] {
      PairIs(d, p, last);
      var x := ReadPair(d, p, last);
      if x.Got? { PairsAreRead(d, x.next, q, l[1..], Some(x.value.0)); }
      assert l == [l[0]] + l[1..];
    }
  }

  /** To follow each other is to be strictly sorted. */
  lemma {:induction false} OrderedIs(l: seq<Pair>, last: Option<Path>)
    ensures Ordered(l, last) <==> SortedAfter(l, last) && forall i :: 0 <= i < |l| ==> WirePath(l[i].0)
    decreases |l|
  {
    hide Less, WirePath;
    if l != [] {
      OrderedIs(l[1..], Some(l[0].0));
      assert l == [l[0]] + l[1..];
      if Ordered(l, last) { SortedCons(l[0], l[1..], last); }
    }
  }

  /** A body of a tree: a map with the one key 1, and under it the map of these pairs. */
  ghost predicate BodyAt(d: bytes, l: seq<Pair>) {
    exists a: nat, b: nat, c: nat ::
      HeadAt(d, 0, a, 5, 1) && HeadAt(d, a, b, 0, 1) && HeadAt(d, b, c, 5, |l|) && PairsAt(d, c, |d|, l)
  }

  lemma BodyIs(d: bytes, l: seq<Pair>)
    ensures ReadBody(d) == Ok(l) <==> BodyAt(d, l) && |l| <= 1_000_000 && Ordered(l, None)
  {
    hide HeadAt, ReadUint, PairsAt, ReadPairs, Ordered;
    NumberIs(d, 0, 5);
    if ReadBody(d) == Ok(l) {
      var a := ReadUint(d, 0, 5).next;
      var b := ReadUint(d, a, 0).next;
      var c := ReadUint(d, b, 5).next;
      NumberIs(d, a, 0);
      NumberIs(d, b, 5);
      PairsAreRead(d, c, |d|, l, None);
      assert HeadAt(d, 0, a, 5, 1) && HeadAt(d, a, b, 0, 1) && HeadAt(d, b, c, 5, |l|) && PairsAt(d, c, |d|, l);
    }
    if BodyAt(d, l) && |l| <= 1_000_000 && Ordered(l, None) {
      var a: nat, b: nat, c: nat :|
        HeadAt(d, 0, a, 5, 1) && HeadAt(d, a, b, 0, 1) && HeadAt(d, b, c, 5, |l|) && PairsAt(d, c, |d|, l);
      NumberIs(d, a, 0);
      NumberIs(d, b, 5);
      PairsAreRead(d, c, |d|, l, None);
    }
  }

  lemma MapOfIs(l: seq<Pair>, t: TreeMap)
    requires SortedAfter(l, None)
    ensures t == MapOf(l) <==> forall k, e :: k in t && t[k] == e <==> (k, e) in l
  {
    hide Less, MapOf;
    var m := MapOf(l);
    MapOfSorted(l);
    forall k, e ensures k in m && m[k] == e <==> (k, e) in l {
      if k in m && m[k] == e {
        var i :| 0 <= i < |l| && Keys(l)[i] == k;
        assert l[i] == (k, e);
      }
    }
    if forall k, e :: k in t && t[k] == e <==> (k, e) in l {
      forall k ensures k in t <==> k in m {
        if k in t { assert (k, t[k]) in l; }
        if k in m { assert (k, m[k]) in l; }
      }
      forall k | k in t ensures t[k] == m[k] { assert (k, t[k]) in l; }
    }
  }

  /** The decoder accepts exactly the bodies with at most a million pairs under strictly increasing valid paths, and
      gives the tree of these pairs. */
  lemma TreeLanguage(d: bytes, t: TreeMap)
    ensures DecodeTree(d) == Ok(t) <==> exists l: seq<Pair> ::
              && BodyAt(d, l) && |l| <= 1_000_000
              && (forall i :: 0 <= i < |l| ==> ValidUtf8(l[i].0) && ValidPath(l[i].0))
              && (forall i, j :: 0 <= i < j < |l| ==> Less(l[i].0, l[j].0))
              && (forall k, e :: k in t && t[k] == e <==> (k, e) in l)
  {
    hide ReadBody, BodyAt, MapOf, Less, ValidPath, ValidUtf8, Ordered;
    if DecodeTree(d) == Ok(t) {
      var l := ReadBody(d).value;
      BodyIs(d, l);
      OrderedIs(l, None);
      MapOfIs(l, t);
    }
    if l: seq<Pair> :| && BodyAt(d, l) && |l| <= 1_000_000
                       && (forall i :: 0 <= i < |l| ==> ValidUtf8(l[i].0) && ValidPath(l[i].0))
                       && (forall i, j :: 0 <= i < j < |l| ==> Less(l[i].0, l[j].0))
                       && (forall k, e :: k in t && t[k] == e <==> (k, e) in l)
    {
      OrderedIs(l, None);
      MapOfIs(l, t);
      BodyIs(d, l);
    }
  }

  // ---------------------------------------------------------------------------------------------
  // Commits and announcements
  // ---------------------------------------------------------------------------------------------

  ghost predicate ValueAt(d: bytes, p: nat, q: nat, x: Val) {
    match x
    case UV(v) => HeadAt(d, p, q, 0, v)
    case BV(s) => StringAt(d, p, q, 2, s)
    case TV(t) => StringAt(d, p, q, 3, t) && ValidUtf8(t)
    case LV(cs) => ArrayAt(d, p, q, cs)
  }

  lemma ValueIs(d: bytes, p: nat, kind: Kind)
    ensures forall q: nat, x: Val :: ReadVal(d, p, kind) == Got(x, q) <==> ValueAt(d, p, q, x) && Has(x, kind)
  {
    hide HeadAt, StringAt, ArrayAt, ReadHead, ReadBstr, ReadTstr, ReadCids, ValidUtf8, CidsAt;
    match kind {
      case U(_) => NumberIs(d, p, 0);
      case B(_) => BstrIs(d, p);
      case T => TstrIs(d, p);
      case L(limit) =>
        ArrayIs(d, p);
        assert ReadVal(d, p, kind).Got? ==>
            ReadArray(d, p).Got? && ReadVal(d, p, kind) == Got(LV(ReadArray(d, p).value), ReadArray(d, p).next);
        assert ReadArray(d, p).Got? && |ReadArray(d, p).value| <= limit ==> ReadVal(d, p, kind).Got?;
    }
  }

  /** The values under the keys k, k + 1, ... */
  ghost predicate FieldsAt(d: bytes, p: nat, q: nat, k: nat, xs: seq<Val>)
    decreases |xs|
  {
    if xs == [] then p == q
    else exists m: nat, n: nat :: HeadAt(d, p, m, 0, k) && ValueAt(d, m, n, xs[0]) && FieldsAt(d, n, q, k + 1, xs[1..])
  }

  lemma {:induction false} FieldsOfKeys(d: bytes, p: nat, k: nat, schema: Schema, vals: Vals) returns (xs: seq<Val>)
    requires 1 <= k <= |schema| + 1 && ReadKeys(d, p, |schema| - (k - 1), schema, Records.Before(k), vals).Got?
    ensures var r := ReadKeys(d, p, |schema| - (k - 1), schema, Records.Before(k), vals);
            && |xs| == |schema| - (k - 1) && HaveFrom(schema, k, xs)
            && r.value == Filled(vals, k, xs) && FieldsAt(d, p, r.next, k, xs)
    decreases |schema| + 1 - k
  {
    hide ReadUint, ReadVal, Has, HeadAt, ValueAt;
    var n := |schema| - (k - 1);
    xs := [];
    if n > 0 {
      var r, x := ReadKeys(d, p, n, schema, Records.Before(k), vals), ReadKeyed(d, p, schema, Records.Before(k));
      KeysRunOut(d, x.next, n - 1, schema, x.value.0, vals[x.value.0 := x.value.1]);
      assert x.value.0 == k;
      var rest := FieldsOfKeys(d, x.next, k + 1, schema, vals[k := x.value.1]);
      xs := [x.value.1] + rest;
      assert xs[1..] == rest;
      var m := ReadUint(d, p, 0);
      NumberIs(d, p, 0);
      ValueIs(d, m.next, schema[k - 1]);
      assert HeadAt(d, p, m.next, 0, k) && ValueAt(d, m.next, x.next, xs[0])
          && FieldsAt(d, x.next, r.next, k + 1, xs[1..]);
    }
  }

  lemma {:induction false} KeysOfFields(d: bytes, p: nat, q: nat, k: nat, xs: seq<Val>, schema: Schema,
                                        last: Option<nat>, vals: Vals)
    requires FieldsAt(d, p, q, k, xs) && HaveFrom(schema, k, xs) && (last.Some? ==> last.value < k)
    ensures ReadKeys(d, p, |xs|, schema, last, vals) == Got(Filled(vals, k, xs), q)
    decreases |xs|
  {
    hide ReadUint, ReadVal, Has, HeadAt, ValueAt;
    if xs != [] {
      var m: nat, n: nat :|
        HeadAt(d, p, m, 0, k) && ValueAt(d, m, n, xs[0]) && FieldsAt(d, n, q, k + 1, xs[1..]);
      NumberIs(d, p, 0);
      ValueIs(d, m, schema[k - 1]);
      KeysOfFields(d, n, q, k + 1, xs[1..], schema, Some(k), vals[k := xs[0]]);
    }
  }

  /** A body of a record: a map of these values under the keys 1, 2, ..., and nothing else. */
  ghost predicate RecordAt(d: bytes, xs: seq<Val>) {
    exists a: nat :: HeadAt(d, 0, a, 5, |xs|) && FieldsAt(d, a, |d|, 1, xs)
  }

  /** A record is read exactly if its body has values that fit the schema. */
  lemma RecordLanguage(d: bytes, schema: Schema, vals: Vals)
    ensures ReadRecord(d, schema) == Ok(vals) <==> exists xs ::
              |xs| == |schema| && HaveFrom(schema, 1, xs) && RecordAt(d, xs) && vals == Filled(map[], 1, xs)
  {
    hide ReadUint, ReadKeys, Filled, HaveFrom, HeadAt, FieldsAt;
    NumberIs(d, 0, 5);
    if ReadRecord(d, schema) == Ok(vals) {
      var a := ReadUint(d, 0, 5);
      var xs := FieldsOfKeys(d, a.next, 1, schema, map[]);
      assert HeadAt(d, 0, a.next, 5, |xs|) && FieldsAt(d, a.next, |d|, 1, xs);
    }
    if xs :| |xs| == |schema| && HaveFrom(schema, 1, xs) && RecordAt(d, xs) && vals == Filled(map[], 1, xs) {
      var a: nat :| HeadAt(d, 0, a, 5, |xs|) && FieldsAt(d, a, |d|, 1, xs);
      KeysOfFields(d, a, |d|, 1, xs, schema, None, map[]);
    }
  }

  /** The values of a commit, as they stand on the wire. */
  function CommitFields(c: Commit, author: bytes, sig: bytes): seq<Val> {
    [BV(c.tree.raw), LV(c.parents), BV(author), UV(c.timestamp), TV(c.message), UV(c.version), BV(sig)]
  }

  lemma CommitFromFields(xs: seq<Val>)
    requires |xs| == 7 && HaveFrom(COMMIT_SCHEMA, 1, xs)
    ensures HasAll(Filled(map[], 1, xs), COMMIT_SCHEMA)
    ensures var c := CommitFrom(Filled(map[], 1, xs));
            && xs[2].BV? && xs[6].BV? && |xs[2].s| == 32 && |xs[6].s| == 64
            && c.author == HexEncode(xs[2].s) && c.signature == Some(HexEncode(xs[6].s))
            && |c.parents| <= 16 && xs == CommitFields(c, xs[2].s, xs[6].s)
  {
    hide Filled, HexEncode, ValidUtf8;
    FilledAt(map[], 1, xs);
    assert Has(xs[0], COMMIT_SCHEMA[0]) && Has(xs[1], COMMIT_SCHEMA[1]) && Has(xs[2], COMMIT_SCHEMA[2]);
    assert Has(xs[3], COMMIT_SCHEMA[3]) && Has(xs[4], COMMIT_SCHEMA[4]) && Has(xs[5], COMMIT_SCHEMA[5]);
    assert Has(xs[6], COMMIT_SCHEMA[6]);
  }

  /** A text on the wire is valid. */
  lemma TextIsValid(d: bytes, xs: seq<Val>, i: nat)
    requires RecordAt(d, xs) && i < |xs| && xs[i].TV?
    ensures ValidUtf8(xs[i].t)
  {
    hide HeadAt, FieldsAt, ValidUtf8;
    var a: nat :| HeadAt(d, 0, a, 5, |xs|) && FieldsAt(d, a, |d|, 1, xs);
    FieldIsValid(d, a, |d|, 1, xs, i);
  }

  lemma {:induction false} FieldIsValid(d: bytes, p: nat, q: nat, k: nat, xs: seq<Val>, i: nat)
    requires FieldsAt(d, p, q, k, xs) && i < |xs|
    ensures ValFits(xs[i]) && (xs[i].TV? ==> ValidUtf8(xs[i].t))
    decreases i
  {
    hide HeadAt, ValidUtf8, CidsAt;
    var m: nat, n: nat :| HeadAt(d, p, m, 0, k) && ValueAt(d, m, n, xs[0]) && FieldsAt(d, n, q, k + 1, xs[1..]);
    if i > 0 { FieldIsValid(d, n, q, k + 1, xs[1..], i - 1); }
    else { ValueFits(d, m, n, xs[0]); }
  }

  lemma ValueFits(d: bytes, p: nat, q: nat, x: Val)
    requires ValueAt(d, p, q, x)
    ensures ValFits(x)
  {
    hide HeadAt, ValidUtf8, CidsAt;
    match x {
      case UV(_) =>
      case BV(s) => NumberIs(d, p, 2);
      case TV(t) => NumberIs(d, p, 3);
      case LV(_) => NumberIs(d, p, 4);
    }
  }

  /** The commit decoder accepts exactly the records of a 32-byte tree, at most 16 parents, a 32-byte author, a time, a
      text, a 16-bit version and 64 signature bytes. */
  lemma CommitLanguage(d: bytes, c: Commit)
    ensures DecodeCommit(d) == Ok(c) <==> exists author: bytes, sig: bytes ::
              && |author| == 32 && |sig| == 64 && |c.parents| <= 16
              && c.author == HexEncode(author) && c.signature == Some(HexEncode(sig))
              && RecordAt(d, CommitFields(c, author, sig))
  {
    hide ReadRecord, Filled, HexEncode, RecordAt, ValidUtf8, CommitFrom;
    if DecodeCommit(d) == Ok(c) {
      var vals := ReadRecord(d, COMMIT_SCHEMA).value;
      RecordLanguage(d, COMMIT_SCHEMA, vals);
      var xs :| |xs| == 7 && HaveFrom(COMMIT_SCHEMA, 1, xs) && RecordAt(d, xs) && vals == Filled(map[], 1, xs);
      CommitFromFields(xs);
    }
    if author: bytes, sig: bytes :|
       && |author| == 32 && |sig| == 64 && |c.parents| <= 16
       && c.author == HexEncode(author) && c.signature == Some(HexEncode(sig))
       && RecordAt(d, CommitFields(c, author, sig))
    {
      CommitIsRead(d, c, author, sig);
    }
  }

  lemma CommitIsRead(d: bytes, c: Commit, author: bytes, sig: bytes)
    requires |author| == 32 && |sig| == 64 && |c.parents| <= 16
    requires c.author == HexEncode(author) && c.signature == Some(HexEncode(sig))
    requires RecordAt(d, CommitFields(c, author, sig))
    ensures DecodeCommit(d) == Ok(c)
  {
    hide ReadRecord, Filled, HexEncode, RecordAt, ValidUtf8;
    var xs := CommitFields(c, author, sig);
    TextIsValid(d, xs, 4);
    FieldsAreFit(d, xs);
    RecordLanguage(d, COMMIT_SCHEMA, Filled(map[], 1, xs));
    CommitFromFields(xs);
    FilledAt(map[], 1, xs);
  }

  lemma FieldsAreFit(d: bytes, xs: seq<Val>)
    requires RecordAt(d, xs)
    ensures AllFit(xs)
  {
    hide HeadAt, FieldsAt, ValidUtf8;
    var a: nat :| HeadAt(d, 0, a, 5, |xs|) && FieldsAt(d, a, |d|, 1, xs);
    forall i | 0 <= i < |xs| ensures ValFits(xs[i]) { FieldIsValid(d, a, |d|, 1, xs, i); }
  }

  /** The announcement decoder accepts exactly the records of at most 65536 bytes with the nine fields. */
  lemma HeadLanguage(d: bytes, a: Announcement)
    ensures DecodeHead(d) == Ok(a) <==>
              && |d| <= 65536
              && RecordAt(d, [UV(a.version), BV(a.vaultId), TV(a.vaultName), BV(a.head.raw), UV(a.timestamp),
                              BV(a.nodeId.raw), UV(a.sequence), UV(a.configSeq), BV(a.signature)])
  {
    hide ReadRecord, Filled, RecordAt, ValidUtf8;
    if DecodeHead(d) == Ok(a) {
      var vals := ReadRecord(d, HEAD_SCHEMA).value;
      RecordLanguage(d, HEAD_SCHEMA, vals);
      var xs :| |xs| == 9 && HaveFrom(HEAD_SCHEMA, 1, xs) && RecordAt(d, xs) && vals == Filled(map[], 1, xs);
      HeadFromFields(xs);
    }
    if |d| <= 65536 && RecordAt(d, HeadVals(a)) {
      TextIsValid(d, HeadVals(a), 2);
      FieldsAreFit(d, HeadVals(a));
      HeadValsFit(a);
      RecordLanguage(d, HEAD_SCHEMA, Filled(map[], 1, HeadVals(a)));
      FilledAt(map[], 1, HeadVals(a));
    }
  }

  lemma HeadFromFields(xs: seq<Val>)
    requires |xs| == 9 && HaveFrom(HEAD_SCHEMA, 1, xs)
    ensures HasAll(Filled(map[], 1, xs), HEAD_SCHEMA) && xs == HeadVals(HeadFrom(Filled(map[], 1, xs)))
  {
    hide Filled, ValidUtf8;
    FilledAt(map[], 1, xs);
    assert Has(xs[0], HEAD_SCHEMA[0]) && Has(xs[1], HEAD_SCHEMA[1]) && Has(xs[2], HEAD_SCHEMA[2]);
    assert Has(xs[3], HEAD_SCHEMA[3]) && Has(xs[4], HEAD_SCHEMA[4]) && Has(xs[5], HEAD_SCHEMA[5]);
    assert Has(xs[6], HEAD_SCHEMA[6]) && Has(xs[7], HEAD_SCHEMA[7]) && Has(xs[8], HEAD_SCHEMA[8]);
  }
}
