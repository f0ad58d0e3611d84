/** Maps with fixed integer keys 1, 2, 3, ... as the commit and head decoders of src/codec.rs read them:
    strictly increasing keys, one type for each key, no unknown key, and as many keys as the schema has. */
module Records {
  import opened Bytes
  import opened Cbor

  /** What a key's value must be: a bounded number, a string of fixed length, a text, a bounded list of hashes. */
  datatype Kind = U(bound: u64) | B(length: nat) | T | L(limit: nat)

  datatype Val = UV(v: u64) | BV(s: bytes) | TV(t: bytes) | LV(cs: seq<Cid>)

  type Schema = seq<Kind>

  type Vals = map<nat, Val>

  predicate ValFits(x: Val) {
    match x
    case UV(_) => true
    case BV(s) => Fits(|s|)
    case TV(t) => Fits(|t|)
    case LV(cs) => Fits(|cs|)
  }

  predicate Has(x: Val, kind: Kind) {
    && ValFits(x)
    && match kind
       case U(bound) => x.UV? && x.v <= bound
       case B(length) => x.BV? && |x.s| == length
       case T => x.TV? && ValidUtf8(x.t)
       case L(limit) => x.LV? && |x.cs| <= limit
  }

  function ValBytes(x: Val): bytes
    requires ValFits(x)
  {
    match x
    case UV(v) => U64Bytes(v)
    case BV(s) => BstrBytes(s)
    case TV(t) => TstrBytes(t)
    case LV(cs) => UintBytes(4, |cs|) + CidsBytes(cs)
  }

  predicate AllFit(xs: seq<Val>) { forall i :: 0 <= i < |xs| ==> ValFits(xs[i]) }

  /** `xs` under the keys k, k + 1, ... */
  function KeyedBytes(k: nat, xs: seq<Val>): bytes
    requires AllFit(xs) && Fits(k + |xs|)
    decreases |xs|
  {
    if xs == [] then [] else (U64Bytes(k) + ValBytes(xs[0])) + KeyedBytes(k + 1, xs[1..])
  }

  function ReadVal(d: bytes, p: nat, kind: Kind): (r: Read<Val>)
    ensures r.Got? ==> p < r.next <= |d| && Has(r.value, kind)
  {
    match kind
    case U(bound) =>
      (match ReadUint(d, p, 0)
       case Bad(e) => Bad(e)
       case Got(v, q) => if v > bound then Bad(Overflow) else Got(UV(v), q))
    case B(length) =>
      (match ReadFixed(d, p, length) case Bad(e) => Bad(e) case Got(s, q) => Got(BV(s), q))
    case T =>
      (match ReadTstr(d, p) case Bad(e) => Bad(e) case Got(t, q) => Got(TV(t), q))
    case L(limit) =>
      match ReadUint(d, p, 4)
      case Bad(e) => Bad(e)
      case Got(n, q) =>
        if n > limit then Bad(TooMany)
        else match ReadCids(d, q, n) case Bad(e) => Bad(e) case Got(cs, q') => Got(LV(cs), q')
  }

  /** One key and its value, after the key `last`. */
  function ReadKeyed(d: bytes, p: nat, schema: Schema, last: Option<nat>): (r: Read<(nat, Val)>)
    ensures r.Got? ==> p < r.next <= |d|
    ensures r.Got? ==> 1 <= r.value.0 <= |schema| && Has(r.value.1, schema[r.value.0 - 1])
    ensures r.Got? && last.Some? ==> last.value < r.value.0
  {
    match ReadUint(d, p, 0)
    case Bad(e) => Bad(e)
    case Got(k, q) =>
      if last.Some? && k <= last.value then Bad(BadOrder)
      else if !(1 <= k <= |schema|) then Bad(BadKey)
      else match ReadVal(d, q, schema[k - 1]) case Bad(e) => Bad(e) case Got(x, q') => Got((k, x), q')
  }

  function ReadKeys(d: bytes, p: nat, n: nat, schema: Schema, last: Option<nat>, vals: Vals): (r: Read<Vals>)
    ensures r.Got? ==> p <= r.next && (p <= |d| ==> r.next <= |d|)
    decreases n
  {
    if n == 0 then Got(vals, p)
    else match ReadKeyed(d, p, schema, last)
      case Bad(e) => Bad(e)
      case Got(x, q) => ReadKeys(d, q, n - 1, schema, Some(x.0), vals[x.0 := x.1])
  }

  /** A whole body: a map header with the schema's length, its keys, and nothing after them. */
  function ReadRecord(d: bytes, schema: Schema): Result<Vals, CodecError> {
    match ReadUint(d, 0, 5)
    case Bad(e) => Err(e)
    case Got(n, p) =>
      if n != |schema| then Err(BadKeyCount)
      else match ReadKeys(d, p, n, schema, None, map[])
        case Bad(e) => Err(e)
        case Got(vals, q) => if q != |d| then Err(Trailing) else Ok(vals)
  }

  /** The decoder loop: the option variables of the source are the entries of `vals`. */
  method DecodeRecord(data: bytes, schema: Schema) returns (r: Result<Vals, CodecError>)
    ensures r == ReadRecord(data, schema)
  {
    hide ReadHead, ReadVal;
    var cur := new Cursor(data);
    var n := cur.ExpectUint(5);
    if n.Err? { return Err(n.error); }
    if n.value != |schema| { return Err(BadKeyCount); }
    var vals: Vals := map[];
    var last: Option<nat> := None;
    ghost var whole := ReadKeys(data, cur.pos, n.value, schema, None, map[]);
    for i := 0 to n.value
      invariant whole == ReadKeys(data, cur.pos, n.value - i, schema, last, vals)
    {
      var k := cur.ExpectUint(0);
      if k.Err? { return Err(k.error); }
      if last.Some? && k.value <= last.value { return Err(BadOrder); }
      if !(1 <= k.value <= |schema|) { return Err(BadKey); }
      var x := DecodeVal(cur, schema[k.value - 1]);
      if x.Err? { return Err(x.error); }
      last := Some(k.value);
      vals := vals[k.value := x.value];
    }
    if cur.pos != |data| { return Err(Trailing); }
    r := Ok(vals);
  }

  method DecodeVal(cur: Cursor, kind: Kind) returns (r: Result<Val, CodecError>)
    modifies cur
    ensures cur.Did(ReadVal(cur.data, old(cur.pos), kind), r)
  {
    match kind {
      case U(bound) =>
        var v := cur.ExpectUint(0);
        if v.Err? { return Err(v.error); }
        if v.value > bound { return Err(Overflow); }
        r := Ok(UV(v.value));
      case B(length) =>
        var s := cur.ReadFixedString(length);
        if s.Err? { return Err(s.error); }
        r := Ok(BV(s.value));
      case T =>
        var t := cur.ReadTextString();
        if t.Err? { return Err(t.error); }
        r := Ok(TV(t.value));
      case L(limit) =>
        var n := cur.ExpectUint(4);
        if n.Err? { return Err(n.error); }
        if n.value > limit { return Err(TooMany); }
        var cs := cur.ReadCidList(n.value);
        if cs.Err? { return Err(cs.error); }
        r := Ok(LV(cs.value));
    }
  }

  // ---------------------------------------------------------------------------------------------
  // Round trip
  // ---------------------------------------------------------------------------------------------

  /** `vals` with `xs` under the keys k, k + 1, ... */
  function Filled(vals: Vals, k: nat, xs: seq<Val>): Vals
    decreases |xs|
  {
    if xs == [] then vals else Filled(vals[k := xs[0]], k + 1, xs[1..])
  }

  lemma {:induction false} FilledAt(vals: Vals, k: nat, xs: seq<Val>)
    ensures forall j :: k <= j < k + |xs| ==> j in Filled(vals, k, xs) && Filled(vals, k, xs)[j] == xs[j - k]
    ensures forall j :: j in vals && j < k ==> j in Filled(vals, k, xs) && Filled(vals, k, xs)[j] == vals[j]
    decreases |xs|
  {
    if xs != [] {
      FilledAt(vals[k := xs[0]], k + 1, xs[1..]);
    }
  }

  /** The values fit the schema from its key `k` on. */
  ghost predicate HaveFrom(schema: Schema, k: nat, xs: seq<Val>) {
    k >= 1 && k - 1 + |xs| <= |schema| && forall i :: 0 <= i < |xs| ==> Has(xs[i], schema[k - 1 + i])
  }

  lemma ValRoundTrip(d: bytes, p: nat, x: Val, kind: Kind)
    requires Has(x, kind) && At(d, p, ValBytes(x))
    ensures ReadVal(d, p, kind) == Got(x, p + |ValBytes(x)|)
  {
    hide At, ReadHead, UintBytes, ReadCids, CidsBytes, ValidUtf8;
    match x {
      case UV(v) => HeadRoundTrip(d, p, 0, v);
      case BV(s) => BstrRoundTrip(d, p, s);
      case TV(t) => TstrRoundTrip(d, p, t);
      case LV(cs) =>
        AtConcat(d, p, UintBytes(4, |cs|), CidsBytes(cs));
        HeadRoundTrip(d, p, 4, |cs|);
        CidsRoundTrip(d, p + |UintBytes(4, |cs|)|, cs);
    }
  }

  lemma KeyRoundTrip(d: bytes, p: nat, k: nat, x: Val, schema: Schema, last: Option<nat>)
    requires Fits(k) && 1 <= k <= |schema| && Has(x, schema[k - 1]) && (last.Some? ==> last.value < k)
    requires At(d, p, U64Bytes(k) + ValBytes(x))
    ensures ReadKeyed(d, p, schema, last) == Got((k, x), p + |U64Bytes(k) + ValBytes(x)|)
  {
    hide At, ReadHead, UintBytes, ValBytes, ReadVal;
    AtConcat(d, p, U64Bytes(k), ValBytes(x));
    HeadRoundTrip(d, p, 0, k);
    ValRoundTrip(d, p + |U64Bytes(k)|, x, schema[k - 1]);
  }

  lemma {:induction false} KeysRoundTrip(d: bytes, p: nat, k: nat, xs: seq<Val>, schema: Schema, last: Option<nat>,
                                         vals: Vals)
    requires HaveFrom(schema, k, xs) && Fits(k + |xs|) && (last.Some? ==> last.value < k)
    requires AllFit(xs) && At(d, p, KeyedBytes(k, xs))
    ensures ReadKeys(d, p, |xs|, schema, last, vals) == Got(Filled(vals, k, xs), p + |KeyedBytes(k, xs)|)
    decreases |xs|
  {
    hide At, ReadKeyed, U64Bytes, ValBytes, Has;
    if xs != [] {
      var head := U64Bytes(k) + ValBytes(xs[0]);
      AtConcat(d, p, head, KeyedBytes(k + 1, xs[1..]));
      KeyRoundTrip(d, p, k, xs[0], schema, last);
      KeysRoundTrip(d, p + |head|, k + 1, xs[1..], schema, Some(k), vals[k := xs[0]]);
    }
  }

  function RecordBytes(xs: seq<Val>): bytes
    requires AllFit(xs) && |xs| < 24
  {
    UintBytes(5, |xs|) + KeyedBytes(1, xs)
  }

  /** Decoding the encoding of values that fit the schema gives those values under their keys. */
  lemma RecordRoundTrip(xs: seq<Val>, schema: Schema)
    requires |xs| == |schema| < 24 && HaveFrom(schema, 1, xs) && AllFit(xs)
    ensures ReadRecord(RecordBytes(xs), schema) == Ok(Filled(map[], 1, xs))
  {
    hide ReadHead, UintBytes, ReadKeys, KeyedBytes, Has, Filled;
    var d, header := RecordBytes(xs), UintBytes(5, |xs|);
    assert At(d, 0, d);
    AtConcat(d, 0, header, KeyedBytes(1, xs));
    HeadRoundTrip(d, 0, 5, |xs|);
    KeysRoundTrip(d, |header|, 1, xs, schema, None, map[]);
  }

  /** Two value lists of the same kinds that stand at the same place are the same. */
  lemma {:induction false} KeyedInjective(d: bytes, p: nat, k: nat, a: seq<Val>, b: seq<Val>, schema: Schema)
    requires |a| == |b| && Fits(k + |a|) && HaveFrom(schema, k, a) && HaveFrom(schema, k, b) && AllFit(a) && AllFit(b)
    requires At(d, p, KeyedBytes(k, a)) && At(d, p, KeyedBytes(k, b))
    ensures a == b
    decreases |a|
  {
    hide At, ReadKeyed, U64Bytes, ValBytes, Has;
    if a != [] {
      var head := U64Bytes(k) + ValBytes(a[0]);
      AtConcat(d, p, head, KeyedBytes(k + 1, a[1..]));
      AtConcat(d, p, U64Bytes(k) + ValBytes(b[0]), KeyedBytes(k + 1, b[1..]));
      KeyRoundTrip(d, p, k, a[0], schema, None);
      KeyRoundTrip(d, p, k, b[0], schema, None);
      KeyedInjective(d, p + |head|, k + 1, a[1..], b[1..], schema);
      assert a == [a[0]] + a[1..] && b == [b[0]] + b[1..];
    }
  }

  // ---------------------------------------------------------------------------------------------
  // Slack
  // ---------------------------------------------------------------------------------------------

  lemma ValSlack(d: bytes, p: nat, kind: Kind)
    requires ReadVal(d, p, kind).Got?
    ensures var r := ReadVal(d, p, kind); Slack(d, p, r.next, ValBytes(r.value))
  {
    hide Slack, ReadHead, UintBytes, ReadCids, CidsBytes, ValidUtf8;
    match kind {
      case U(_) => UintSlack(d, p, 0);
      case B(_) => BstrSlack(d, p);
      case T => TstrSlack(d, p);
      case L(_) =>
        var n, r := ReadUint(d, p, 4), ReadVal(d, p, kind);
        UintSlack(d, p, 4);
        CidsSlack(d, n.next, n.value);
        SlackConcat(d, p, n.next, r.next, UintBytes(4, n.value), CidsBytes(r.value.cs));
    }
  }

  lemma KeySlack(d: bytes, p: nat, schema: Schema, last: Option<nat>)
    requires ReadKeyed(d, p, schema, last).Got?
    ensures var r := ReadKeyed(d, p, schema, last);
            Fits(r.value.0) && Slack(d, p, r.next, U64Bytes(r.value.0) + ValBytes(r.value.1))
  {
    hide Slack, ReadHead, UintBytes, ReadVal, ValBytes, Has;
    var k, r := ReadUint(d, p, 0), ReadKeyed(d, p, schema, last);
    UintSlack(d, p, 0);
    ValSlack(d, k.next, schema[k.value - 1]);
    HasFits(r.value.1, schema[k.value - 1]);
    SlackConcat(d, p, k.next, r.next, U64Bytes(k.value), ValBytes(r.value.1));
  }

  /** Increasing keys within the schema: no more of them can follow than are left. */
  lemma {:induction false} KeysRunOut(d: bytes, p: nat, n: nat, schema: Schema, last: nat, vals: Vals)
    requires ReadKeys(d, p, n, schema, Some(last), vals).Got? && last <= |schema|
    ensures last + n <= |schema|
    decreases n
  {
    hide ReadKeyed;
    if n > 0 {
      var x := ReadKeyed(d, p, schema, Some(last));
      KeysRunOut(d, x.next, n - 1, schema, x.value.0, vals[x.value.0 := x.value.1]);
    }
  }

  /** As many keys as the schema still has: they are exactly the next ones, in order. */
  lemma {:induction false} KeysSlack(d: bytes, p: nat, k: nat, schema: Schema, vals: Vals) returns (xs: seq<Val>)
    requires 1 <= k <= |schema| + 1 && Fits(|schema| + 1) && p <= |d|
    requires ReadKeys(d, p, |schema| - (k - 1), schema, Before(k), vals).Got?
    ensures var r := ReadKeys(d, p, |schema| - (k - 1), schema, Before(k), vals);
            && |xs| == |schema| - (k - 1) && HaveFrom(schema, k, xs) && AllFit(xs)
            && r.value == Filled(vals, k, xs) && Slack(d, p, r.next, KeyedBytes(k, xs))
    decreases |schema| + 1 - k
  {
    hide Slack, ReadKeyed, U64Bytes, ValBytes, Has;
    var n := |schema| - (k - 1);
    xs := [];
    if n == 0 {
      SlackNone(d, p);
    } else {
      var r, x := ReadKeys(d, p, n, schema, Before(k), vals), ReadKeyed(d, p, schema, Before(k));
      KeySlack(d, p, schema, Before(k));
      KeysRunOut(d, x.next, n - 1, schema, x.value.0, vals[x.value.0 := x.value.1]);
      assert x.value.0 == k;
      var rest := KeysSlack(d, x.next, k + 1, schema, vals[k := x.value.1]);
      xs := [x.value.1] + rest;
      assert xs[1..] == rest;
      HasFits(x.value.1, schema[k - 1]);
      SlackConcat(d, p, x.next, r.next, U64Bytes(k) + ValBytes(x.value.1), KeyedBytes(k + 1, rest));
    }
  }

  function Before(k: nat): Option<nat> { if k <= 1 then None else Some(k - 1) }

  lemma HasFits(x: Val, kind: Kind)
    requires Has(x, kind)
    ensures ValFits(x)
  {
  }

  /** Whatever body is accepted, its values re-encode to no more bytes, and to as many only if the body was that
      encoding. */
  lemma RecordSlack(d: bytes, schema: Schema) returns (xs: seq<Val>)
    requires |schema| < 24 && ReadRecord(d, schema).Ok?
    ensures |xs| == |schema| && HaveFrom(schema, 1, xs) && AllFit(xs)
    ensures ReadRecord(d, schema) == Ok(Filled(map[], 1, xs))
    ensures |RecordBytes(xs)| <= |d| && (|RecordBytes(xs)| == |d| <==> RecordBytes(xs) == d)
  {
    hide ReadHead, UintBytes, ReadKeys, KeyedBytes, Has;
    var n := ReadUint(d, 0, 5);
    UintSlack(d, 0, 5);
    xs := KeysSlack(d, n.next, 1, schema, map[]);
    SlackConcat(d, 0, n.next, |d|, UintBytes(5, |schema|), KeyedBytes(1, xs));
    assert d[0..|d|] == d;
  }

  // ---------------------------------------------------------------------------------------------
  // Writing field by field
  // ---------------------------------------------------------------------------------------------

  lemma {:induction false} KeyedAppend(k: nat, xs: seq<Val>, x: Val)
    requires AllFit(xs) && ValFits(x) && Fits(k + |xs| + 1)
    ensures AllFit(xs + [x])
    ensures KeyedBytes(k, xs + [x]) == KeyedBytes(k, xs) + (U64Bytes(k + |xs|) + ValBytes(x))
    decreases |xs|
  {
    hide U64Bytes, ValBytes;
    if xs == [] {
      assert xs + [x] == [x];
      assert KeyedBytes(k + 1, [x][1..]) == [];
    } else {
      KeyedAppend(k + 1, xs[1..], x);
      assert (xs + [x])[1..] == xs[1..] + [x];
      Assoc(U64Bytes(k) + ValBytes(xs[0]), KeyedBytes(k + 1, xs[1..]), U64Bytes(k + |xs|) + ValBytes(x));
    }
  }

  /** Writing field `i` of a record `xs` whose keys start at `k0`. */
  method WriteNth(buf: Buffer, ghost start: bytes, k0: nat, ghost xs: seq<Val>, i: nat, x: Val)
    requires AllFit(xs) && i < |xs| && Fits(k0 + |xs|) && xs[i] == x
    requires buf.data == start + KeyedBytes(k0, xs[..i])
    modifies buf
    ensures buf.data == start + KeyedBytes(k0, xs[..i + 1])
  {
    hide U64Bytes, BstrBytes, TstrBytes, CidsBytes, UintBytes, KeyedBytes;
    KeyedAppend(k0, xs[..i], x);
    assert xs[..i + 1] == xs[..i] + [x];
    match x {
      case UV(v) => WriteKeyU64(buf, k0 + i, v);
      case BV(s) => WriteKeyBstr(buf, k0 + i, s);
      case TV(t) => WriteKeyTstr(buf, k0 + i, t);
      case LV(cs) => WriteKeyCids(buf, k0 + i, cs);
    }
    Assoc(start, KeyedBytes(k0, xs[..i]), U64Bytes(k0 + i) + ValBytes(x));
  }

  lemma NoneKeyed(start: bytes, k: nat, xs: seq<Val>)
    requires AllFit(xs) && Fits(k + |xs|)
    ensures start + KeyedBytes(k, xs[..0]) == start && xs[..|xs|] == xs
  {
  }

  ghost predicate HasAll(vals: Vals, schema: Schema) {
    forall k :: 1 <= k <= |schema| ==> k in vals && Has(vals[k], schema[k - 1])
  }

  lemma RecordHasAll(d: bytes, schema: Schema)
    requires |schema| < 24 && ReadRecord(d, schema).Ok?
    ensures HasAll(ReadRecord(d, schema).value, schema)
  {
    hide ReadRecord, RecordBytes, Has, Filled;
    var xs := RecordSlack(d, schema);
    FilledAt(map[], 1, xs);
  }
}
