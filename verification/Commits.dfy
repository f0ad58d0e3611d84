/** Commits: the wire normal form of src/codec.rs and src/commit.rs, sign preimages and signatures of
    src/identity.rs. */
module Commits {
  import opened Bytes
  import opened Texts
  import opened Cbor
  import opened Records
  import opened Frames

  const PROTOCOL_VERSION: nat := 1
  const MAX_COMMIT_PARENTS: nat := 16

  type u16 = v: int | 0 <= v < 0x1_0000

  /** Strings are UTF-8 bytes; a signature is hexadecimal text. */
  datatype Commit = Commit(tree: Cid, parents: seq<Cid>, author: bytes, timestamp: u64, message: bytes, version: u16,
      signature: Option<bytes>)

  // ---------------------------------------------------------------------------------------------
  // What goes on the wire
  // ---------------------------------------------------------------------------------------------

  // "soal-author:"
  const AUTHOR_PREFIX: bytes := [115, 111, 97, 108, 45, 97, 117, 116, 104, 111, 114, 58]

  const NO_SIGNATURE: bytes := Zeros(64)

  /** `author_to_bytes`: hexadecimal authors stand for themselves, others for a hash. */
  function AuthorId(H: bytes -> Cid, author: bytes): Cid {
    match FromHex(author)
    case Some(c) => c
    case None => H(AUTHOR_PREFIX + author)
  }

  /** `signature_bytes`: 64 zero bytes unless the text decodes to 64 bytes. */
  function SignatureBytes(c: Commit): (s: bytes)
    ensures |s| == 64
  {
    match c.signature
    case None => NO_SIGNATURE
    case Some(text) =>
      match HexDecode(Trim(text))
      case Some(s) => if |s| == 64 then s else NO_SIGNATURE
      case None => NO_SIGNATURE
  }

  function WireVersion(c: Commit): u16 { if c.version == 0 then PROTOCOL_VERSION else c.version }

  const COMMIT_SCHEMA: Schema := [B(32), L(MAX_COMMIT_PARENTS), B(32), U(0xFFFF_FFFF_FFFF_FFFF), T, U(0xFFFF), B(64)]

  /** The fields a signature covers: keys 1 to 6. */
  function SignedVals(H: bytes -> Cid, c: Commit): (xs: seq<Val>)
    ensures |xs| == 6
  {
    [BV(c.tree.raw), LV(c.parents), BV(AuthorId(H, c.author).raw), UV(c.timestamp), TV(c.message), UV(WireVersion(c))]
  }

  function CommitVals(H: bytes -> Cid, c: Commit): seq<Val> {
    SignedVals(H, c) + [BV(SignatureBytes(c))]
  }

  /** What `encode_commit_body` accepts; the message bound stands for strings no machine can hold. */
  predicate CommitFits(c: Commit) { |c.parents| <= MAX_COMMIT_PARENTS && Fits(|c.message|) }

  predicate GoodCommit(c: Commit) { CommitFits(c) && ValidUtf8(c.message) }

  lemma ValsFit(H: bytes -> Cid, c: Commit)
    requires CommitFits(c)
    ensures AllFit(SignedVals(H, c)) && AllFit(CommitVals(H, c))
    ensures GoodCommit(c) ==>
              HaveFrom(COMMIT_SCHEMA, 1, CommitVals(H, c)) && HaveFrom(COMMIT_SCHEMA, 1, SignedVals(H, c))
  {
    hide AuthorId, SignatureBytes, ValidUtf8;
  }

  function CommitBody(H: bytes -> Cid, c: Commit): bytes
    requires CommitFits(c)
  {
    ValsFit(H, c);
    RecordBytes(CommitVals(H, c))
  }

  function CommitWire(H: bytes -> Cid, c: Commit): bytes
    requires CommitFits(c)
  {
    Frame(DOMAIN_COMMIT, CommitBody(H, c))
  }

  /** `commit_sign_message` */
  function SignMessage(H: bytes -> Cid, c: Commit): bytes
    requires CommitFits(c)
  {
    ValsFit(H, c);
    Frame(DOMAIN_COMMIT, RecordBytes(SignedVals(H, c)))
  }

  /** The writes shared by `encode_commit_body` and `encode_commit_sign_body`. */
  method WriteSigned(H: bytes -> Cid, c: Commit, buf: Buffer) returns (ghost start: bytes)
    requires CommitFits(c)
    modifies buf
    ensures start == old(buf.data) && AllFit(SignedVals(H, c)) && buf.data == start + KeyedBytes(1, SignedVals(H, c))
  {
    hide KeyedBytes, AuthorId, AllFit, HaveFrom, GoodCommit, ValBytes, CidsBytes, UintBytes, WireVersion;
    start := buf.data;
    ghost var xs := SignedVals(H, c);
    ValsFit(H, c);
    NoneKeyed(start, 1, xs);
    WriteNth(buf, start, 1, xs, 0, BV(c.tree.raw));
    WriteNth(buf, start, 1, xs, 1, LV(c.parents));
    WriteNth(buf, start, 1, xs, 2, BV(AuthorId(H, c.author).raw));
    WriteNth(buf, start, 1, xs, 3, UV(c.timestamp));
    WriteNth(buf, start, 1, xs, 4, TV(c.message));
    WriteNth(buf, start, 1, xs, 5, UV(WireVersion(c)));
  }

  /** `encode_commit_body` */
  method EncodeCommitBody(H: bytes -> Cid, c: Commit) returns (r: Result<bytes, CodecError>)
    ensures CommitFits(c) ==> r == Ok(CommitBody(H, c))
    ensures !CommitFits(c) ==> r == Err(if |c.parents| > MAX_COMMIT_PARENTS then TooMany else TooLong)
  {
    hide KeyedBytes, SignedVals;
    if |c.parents| > MAX_COMMIT_PARENTS { return Err(TooMany); }
    if !Fits(|c.message|) { return Err(TooLong); }
    ValsFit(H, c);
    var buf := new Buffer();
    buf.PushUint(5, 7);
    ghost var start := WriteSigned(H, c, buf);
    ghost var xs := CommitVals(H, c);
    assert xs[..6] == SignedVals(H, c) && xs[..7] == xs;
    WriteNth(buf, start, 1, xs, 6, BV(SignatureBytes(c)));
    assert start == UintBytes(5, 7) by { assert [] + UintBytes(5, 7) == UintBytes(5, 7); }
    r := Ok(buf.data);
  }

  /** `encode_commit_sign_body` under its domain */
  method EncodeSignMessage(H: bytes -> Cid, c: Commit) returns (r: Result<bytes, CodecError>)
    ensures CommitFits(c) ==> r == Ok(SignMessage(H, c))
    ensures !CommitFits(c) ==> r == Err(if |c.parents| > MAX_COMMIT_PARENTS then TooMany else TooLong)
  {
    hide KeyedBytes;
    if |c.parents| > MAX_COMMIT_PARENTS { return Err(TooMany); }
    if !Fits(|c.message|) { return Err(TooLong); }
    var buf := new Buffer();
    buf.PushUint(5, 6);
    ghost var start := WriteSigned(H, c, buf);
    assert start == UintBytes(5, 6) by { assert [] + UintBytes(5, 6) == UintBytes(5, 6); }
    r := Ok(Frame(DOMAIN_COMMIT, buf.data));
  }

  // ---------------------------------------------------------------------------------------------
  // Decoding
  // ---------------------------------------------------------------------------------------------

  /** The commit built from the seven decoded fields. */
  function CommitFrom(vals: Vals): Commit
    requires HasAll(vals, COMMIT_SCHEMA)
  {
    assert Has(vals[1], COMMIT_SCHEMA[0]) && Has(vals[2], COMMIT_SCHEMA[1]) && Has(vals[3], COMMIT_SCHEMA[2]);
    assert Has(vals[4], COMMIT_SCHEMA[3]) && Has(vals[5], COMMIT_SCHEMA[4]) && Has(vals[6], COMMIT_SCHEMA[5]);
    assert Has(vals[7], COMMIT_SCHEMA[6]);
    Commit(Cid(vals[1].s), vals[2].cs, HexEncode(vals[3].s), vals[4].v, vals[5].t, vals[6].v,
        Some(HexEncode(vals[7].s)))
  }

  /** `decode_commit_body` */
  function DecodeCommit(d: bytes): Result<Commit, CodecError> {
    match ReadRecord(d, COMMIT_SCHEMA)
    case Err(e) => Err(e)
    case Ok(vals) =>
      RecordHasAll(d, COMMIT_SCHEMA);
      Ok(CommitFrom(vals))
  }

  function DecodeCommitWire(w: bytes): Result<Commit, CodecError> {
    match Unframe(DOMAIN_COMMIT, w)
    case Err(e) => Err(e)
    case Ok(body) => DecodeCommit(body)
  }

  method DecodeCommitBody(data: bytes) returns (r: Result<Commit, CodecError>)
    ensures r == DecodeCommit(data)
  {
    hide ReadRecord, CommitFrom;
    var vals := DecodeRecord(data, COMMIT_SCHEMA);
    if vals.Err? { return Err(vals.error); }
    RecordHasAll(data, COMMIT_SCHEMA);
    r := Ok(CommitFrom(vals.value));
  }

  // ---------------------------------------------------------------------------------------------
  // The wire is a normal form
  // ---------------------------------------------------------------------------------------------

  /** What a commit becomes by travelling: author and signature as lower-case hexadecimal, version never 0. */
  function Normal(H: bytes -> Cid, c: Commit): Commit {
    Commit(c.tree, c.parents, HexEncode(AuthorId(H, c.author).raw), c.timestamp, c.message, WireVersion(c),
      Some(HexEncode(SignatureBytes(c))))
  }

  /** The wire fields of a commit built from fields are those fields, but for a version 0. */
  lemma FieldsOfDecoded(H: bytes -> Cid, xs: seq<Val>)
    requires |xs| == 7 && HaveFrom(COMMIT_SCHEMA, 1, xs) && HasAll(Filled(map[], 1, xs), COMMIT_SCHEMA)
    ensures var c := CommitFrom(Filled(map[], 1, xs));
            && GoodCommit(c)
            && CommitVals(H, c) == xs[5 := UV(if xs[5].v == 0 then 1 else xs[5].v)]
            && c.version == xs[5].v
  {
    hide Filled, HexDecode, HexEncode, FromHex, Trim, ValidUtf8;
    FilledAt(map[], 1, xs);
    assert forall i :: 0 <= i < 7 ==> Has(xs[i], COMMIT_SCHEMA[i]);
    var c := CommitFrom(Filled(map[], 1, xs));
    FromHexRoundTrip(Cid(xs[2].s));
    HexRoundTrip(xs[6].s);
    TrimHex(HexEncode(xs[6].s));
  }

  /** Decoding an encoded commit gives its normal form. */
  lemma CommitRoundTrip(H: bytes -> Cid, c: Commit)
    requires GoodCommit(c)
    ensures DecodeCommit(CommitBody(H, c)) == Ok(Normal(H, c))
    ensures DecodeCommitWire(CommitWire(H, c)) == Ok(Normal(H, c))
  {
    hide Filled, RecordBytes, ReadRecord, AuthorId, SignatureBytes, HexEncode, ValidUtf8;
    var xs := CommitVals(H, c);
    ValsFit(H, c);
    RecordRoundTrip(xs, COMMIT_SCHEMA);
    FilledAt(map[], 1, xs);
    FrameRoundTrip(DOMAIN_COMMIT, CommitBody(H, c));
  }

  /** The normal form has the same wire, sign preimage and signature: travelling again changes nothing. */
  lemma NormalKeepsWire(H: bytes -> Cid, c: Commit)
    requires CommitFits(c)
    ensures CommitFits(Normal(H, c))
    ensures CommitWire(H, Normal(H, c)) == CommitWire(H, c)
    ensures SignMessage(H, Normal(H, c)) == SignMessage(H, c)
    ensures SignatureBytes(Normal(H, c)) == SignatureBytes(c)
    ensures Normal(H, Normal(H, c)) == Normal(H, c)
  {
    hide RecordBytes, HexDecode, HexEncode, FromHex, Trim;
    FromHexRoundTrip(AuthorId(H, c.author));
    HexRoundTrip(SignatureBytes(c));
    TrimHex(HexEncode(SignatureBytes(c)));
  }

  /** The exact slack of the commit decoder: an accepted body re-encodes to no more bytes, and to itself
      exactly when the lengths agree and its version field is not 0. */
  lemma CommitSlack(H: bytes -> Cid, d: bytes)
    requires DecodeCommit(d).Ok?
    ensures var c := DecodeCommit(d).value;
            && GoodCommit(c)
            && |CommitBody(H, c)| <= |d|
            && (CommitBody(H, c) == d <==> |CommitBody(H, c)| == |d| && c.version != 0)
  {
    hide Filled, RecordBytes, ReadRecord, CommitFrom, CommitVals, ValidUtf8;
    var xs := RecordSlack(d, COMMIT_SCHEMA);
    RecordHasAll(d, COMMIT_SCHEMA);
    FieldsOfDecoded(H, xs);
    var c := DecodeCommit(d).value;
    assert forall i :: 0 <= i < 7 ==> Has(xs[i], COMMIT_SCHEMA[i]);
    if c.version == 0 {
      ValsFit(H, c);
      VersionCounts(xs);
    } else {
      assert xs[5 := UV(c.version)] == xs;
    }
  }

  /** Version 0 and version 1 take the same room but are not the same bytes. */
  lemma VersionCounts(xs: seq<Val>)
    requires |xs| == 7 && HaveFrom(COMMIT_SCHEMA, 1, xs) && AllFit(xs) && xs[5] == UV(0)
    ensures AllFit(xs[5 := UV(1)]) && HaveFrom(COMMIT_SCHEMA, 1, xs[5 := UV(1)])
    ensures |RecordBytes(xs[5 := UV(1)])| == |RecordBytes(xs)| && RecordBytes(xs[5 := UV(1)]) != RecordBytes(xs)
  {
    hide Has, KeyedBytes, U64Bytes;
    var ys := xs[5 := UV(1)];
    HasOne();
    assert forall i :: 0 <= i < 7 ==> Has(xs[i], COMMIT_SCHEMA[i]);
    assert forall i :: 0 <= i < 7 ==> Has(ys[i], COMMIT_SCHEMA[i]);
    SameLength(1, xs, 5, UV(1));
    if RecordBytes(ys) == RecordBytes(xs) {
      var d, header := RecordBytes(xs), UintBytes(5, 7);
      assert At(d, 0, d);
      AtConcat(d, 0, header, KeyedBytes(1, xs));
      AtConcat(d, 0, header, KeyedBytes(1, ys));
      KeyedInjective(d, |header|, 1, xs, ys, COMMIT_SCHEMA);
    }
  }

  lemma HasOne()
    ensures Has(UV(1), COMMIT_SCHEMA[5]) && |ValBytes(UV(1))| == |ValBytes(UV(0))|
  {
  }

  lemma {:induction false} SameLength(k: nat, xs: seq<Val>, i: nat, x: Val)
    requires AllFit(xs) && Fits(k + |xs|) && i < |xs| && ValFits(x) && |ValBytes(x)| == |ValBytes(xs[i])|
    ensures AllFit(xs[i := x]) && |KeyedBytes(k, xs[i := x])| == |KeyedBytes(k, xs)|
    decreases i
  {
    hide ValBytes, U64Bytes;
    if i == 0 {
      assert xs[0 := x][1..] == xs[1..];
    } else {
      SameLength(k + 1, xs[1..], i - 1, x);
      assert xs[i := x][1..] == xs[1..][i - 1 := x];
    }
  }

  // ---------------------------------------------------------------------------------------------
  // Signatures
  // ---------------------------------------------------------------------------------------------

  /** An abstract signature relation: key, message, signature. */
  type Verifier = (Cid, bytes, bytes) -> bool

  /** `verify_commit_signature` */
  predicate SignatureOk(H: bytes -> Cid, V: Verifier, c: Commit)
    requires CommitFits(c)
  {
    SignatureBytes(c) == NO_SIGNATURE || V(AuthorId(H, c.author), SignMessage(H, c), SignatureBytes(c))
  }

  /** A signature made before transfer verifies after it, and only then. */
  lemma SignatureSurvives(H: bytes -> Cid, V: Verifier, c: Commit)
    requires CommitFits(c)
    ensures CommitFits(Normal(H, c)) && (SignatureOk(H, V, Normal(H, c)) <==> SignatureOk(H, V, c))
  {
    hide CommitWire, SignMessage, SignatureBytes, HexEncode, FromHex;
    NormalKeepsWire(H, c);
    FromHexRoundTrip(AuthorId(H, c.author));
  }

  /** `sign_commit`: author, version and signature are set in place. */
  function Signed(H: bytes -> Cid, sign: bytes -> bytes, pk: Cid, c: Commit): Commit
    requires CommitFits(c)
  {
    var c' := c.(author := HexEncode(pk.raw), version := PROTOCOL_VERSION, signature := None);
    c'.(signature := Some(HexEncode(sign(SignMessage(H, c')))))
  }

  /** A signed commit verifies, at once and after transfer, if the key signs what it verifies. */
  lemma SignedVerifies(H: bytes -> Cid, V: Verifier, sign: bytes -> bytes, pk: Cid, c: Commit)
    requires GoodCommit(c)
    requires forall m :: |sign(m)| == 64 && V(pk, m, sign(m))
    ensures var s := Signed(H, sign, pk, c);
            GoodCommit(s) && SignatureOk(H, V, s) && DecodeCommit(CommitBody(H, s)).Ok?
                && SignatureOk(H, V, Normal(H, s))
  {
    hide HexEncode, HexDecode, FromHex, Trim, RecordBytes, DecodeCommit, ValidUtf8, SignMessage, CommitBody;
    var s := Signed(H, sign, pk, c);
    var c' := c.(author := HexEncode(pk.raw), version := PROTOCOL_VERSION, signature := None);
    FromHexRoundTrip(pk);
    var sig := sign(SignMessage(H, c'));
    HexRoundTrip(sig);
    TrimHex(HexEncode(sig));
    assert SignatureBytes(s) == sig;
    SameSignMessage(H, c', s);
    CommitRoundTrip(H, s);
    SignatureSurvives(H, V, s);
  }

  /** The signature is not part of what is signed. */
  lemma SameSignMessage(H: bytes -> Cid, a: Commit, b: Commit)
    requires CommitFits(a) && b == a.(signature := b.signature)
    ensures CommitFits(b) && SignMessage(H, a) == SignMessage(H, b)
  {
    hide RecordBytes, AuthorId;
    assert SignedVals(H, a) == SignedVals(H, b);
  }

  // ---------------------------------------------------------------------------------------------
  // What a signature covers, and when it is refused
  // ---------------------------------------------------------------------------------------------

  /** The preimage determines the tree, the parents, the author's id, the time, the message and the version on the
      wire, and depends on nothing else. */
  lemma SignMessageInjective(H: bytes -> Cid, a: Commit, b: Commit)
    requires CommitFits(a) && CommitFits(b) && ValidUtf8(a.message) && ValidUtf8(b.message)
    ensures SignMessage(H, a) == SignMessage(H, b) <==>
              && a.tree == b.tree && a.parents == b.parents && AuthorId(H, a.author) == AuthorId(H, b.author)
              && a.timestamp == b.timestamp && a.message == b.message
              && (if a.version == 0 then 1 else a.version) == (if b.version == 0 then 1 else b.version)
  {
    hide RecordBytes, AuthorId, HaveFrom, ValidUtf8;
    ValsFit(H, a);
    ValsFit(H, b);
    var xs, ys := SignedVals(H, a), SignedVals(H, b);
    if SignMessage(H, a) == SignMessage(H, b) {
      FrameRoundTrip(DOMAIN_COMMIT, RecordBytes(xs));
      FrameRoundTrip(DOMAIN_COMMIT, RecordBytes(ys));
      SameRecord(xs, ys);
      assert xs[0] == ys[0] && xs[1] == ys[1] && xs[2] == ys[2] && xs[3] == ys[3] && xs[4] == ys[4] && xs[5] == ys[5];
    }
  }

  lemma SameRecord(xs: seq<Val>, ys: seq<Val>)
    requires |xs| == |ys| < 24 && AllFit(xs) && AllFit(ys) && RecordBytes(xs) == RecordBytes(ys)
    requires HaveFrom(COMMIT_SCHEMA, 1, xs) && HaveFrom(COMMIT_SCHEMA, 1, ys)
    ensures xs == ys
  {
    hide KeyedBytes, UintBytes, HaveFrom;
    var d, header := RecordBytes(xs), UintBytes(5, |xs|);
    assert At(d, 0, d);
    AtConcat(d, 0, header, KeyedBytes(1, xs));
    AtConcat(d, 0, header, KeyedBytes(1, ys));
    KeyedInjective(d, |header|, 1, xs, ys, COMMIT_SCHEMA);
  }

  /** An author that is the text of a key, in any case and between white space, is that key; any other is hashed behind
      a prefix. */
  lemma AuthorIdExact(H: bytes -> Cid, author: bytes)
    ensures forall c: Cid :: Lower(Trim(author)) == HexEncode(c.raw) ==> AuthorId(H, author) == c
    ensures (forall c: Cid :: Lower(Trim(author)) != HexEncode(c.raw)) ==>
              AuthorId(H, author) == H(Ascii("soal-author:") + author)
  {
    hide FromHex, Trim, Lower, HexEncode;
    forall c: Cid ensures FromHex(author) == Some(c) <==> Lower(Trim(author)) == HexEncode(c.raw) {
      FromHexExact(author, c);
    }
    assert AUTHOR_PREFIX == Ascii("soal-author:");
  }

  /** A signature that is the text of 64 bytes is those bytes; any other, or none, is 64 zeros. */
  lemma SignatureBytesExact(c: Commit)
    ensures forall s: bytes :: |s| == 64 && c.signature.Some? && Lower(Trim(c.signature.value)) == HexEncode(s) ==>
              SignatureBytes(c) == s
    ensures c.signature.None? || (forall s: bytes :: |s| == 64 ==> Lower(Trim(c.signature.value)) != HexEncode(s)) ==>
              SignatureBytes(c) == seq(64, i => 0)
  {
    hide HexDecode, Trim, Lower, HexEncode;
    AllZeros(64);
    if c.signature.Some? {
      var t := Trim(c.signature.value);
      forall s: bytes ensures HexDecode(t) == Some(s) <==> Lower(t) == HexEncode(s) { HexDecodeExact(t, s); }
    }
  }

  lemma {:induction false} AllZeros(n: nat)
    ensures Zeros(n) == seq(n, i => 0)
  {
    if n > 0 { AllZeros(n - 1); }
  }

  /** A decoded commit bears its author's 32 bytes and its 64 signature bytes in hexadecimal; it is refused exactly if
      these are not all zero and the author's key does not verify them on the preimage. */
  lemma RefusedExactly(H: bytes -> Cid, V: Verifier, w: bytes, author: Cid, sig: bytes)
    requires DecodeCommitWire(w).Ok? && CommitFits(DecodeCommitWire(w).value) && |sig| == 64
    requires DecodeCommitWire(w).value.author == HexEncode(author.raw)
    requires DecodeCommitWire(w).value.signature == Some(HexEncode(sig))
    ensures var c := DecodeCommitWire(w).value;
            SignatureOk(H, V, c) <==> sig == seq(64, i => 0) || V(author, SignMessage(H, c), sig)
  {
    hide DecodeCommitWire, SignMessage, HexDecode, HexEncode, FromHex, Trim;
    FromHexRoundTrip(author);
    HexRoundTrip(sig);
    TrimHex(HexEncode(sig));
    AllZeros(64);
  }

  /** Every decoded commit is of that form. */
  lemma DecodedSigned(w: bytes) returns (author: Cid, sig: bytes)
    requires DecodeCommitWire(w).Ok?
    ensures |sig| == 64 && DecodeCommitWire(w).value.author == HexEncode(author.raw)
    ensures DecodeCommitWire(w).value.signature == Some(HexEncode(sig))
  {
    hide ReadRecord, HexEncode;
    var body := Unframe(DOMAIN_COMMIT, w).value;
    RecordHasAll(body, COMMIT_SCHEMA);
    var vals := ReadRecord(body, COMMIT_SCHEMA).value;
    assert Has(vals[3], COMMIT_SCHEMA[2]) && Has(vals[7], COMMIT_SCHEMA[6]);
    author, sig := Cid(vals[3].s), vals[7].s;
  }

  /** Signing sets the author to the key, the version to 1 and the signature to that of the preimage, and leaves the
      rest. */
  lemma SignedIs(H: bytes -> Cid, sign: bytes -> bytes, pk: Cid, c: Commit)
    requires CommitFits(c)
    ensures var s := Signed(H, sign, pk, c);
            && s.tree == c.tree && s.parents == c.parents && s.timestamp == c.timestamp && s.message == c.message
            && s.version == 1 && s.author == HexEncode(pk.raw)
            && CommitFits(s) && s.signature == Some(HexEncode(sign(SignMessage(H, s))))
  {
    hide SignMessage, HexEncode;
    var c' := c.(author := HexEncode(pk.raw), version := PROTOCOL_VERSION, signature := None);
    SameSignMessage(H, c', Signed(H, sign, pk, c));
  }
}
