/** Signed head announcements of src/codec.rs: the gossip body, the sign preimage, and the separation of
    everything that is signed or content-addressed under a domain. */
module Heads {
  import opened Bytes
  import opened Trees
  import opened Cbor
  import opened Records
  import opened TreeCodec
  import opened Frames
  import opened Commits

  const MAX_MESSAGE_BYTES: nat := 65536
  const MAX_NAME_BYTES: nat := 1024

  type VaultId = s: bytes | |s| == 16 witness seq(16, _ => 0)
  type Signature = s: bytes | |s| == 64 witness seq(64, _ => 0)

  datatype Announcement = Announcement(version: u64, vaultId: VaultId, vaultName: bytes, head: Cid, timestamp: u64,
    nodeId: Cid, sequence: u64, configSeq: u64, signature: Signature)

  const U64_MAX: u64 := 0xFFFF_FFFF_FFFF_FFFF

  const HEAD_SCHEMA: Schema := [U(U64_MAX), B(16), T, B(32), U(U64_MAX), B(32), U(U64_MAX), U(U64_MAX), B(64)]

  function HeadVals(a: Announcement): (xs: seq<Val>)
    ensures |xs| == 9
  {
    [UV(a.version), BV(a.vaultId), TV(a.vaultName), BV(a.head.raw), UV(a.timestamp), BV(a.nodeId.raw),
     UV(a.sequence), UV(a.configSeq), BV(a.signature)]
  }

  /** The fields before and after the display name that the signature covers. */
  function FrontVals(a: Announcement): seq<Val> { [UV(a.version), BV(a.vaultId)] }

  function BackVals(a: Announcement): seq<Val> {
    [BV(a.head.raw), UV(a.timestamp), BV(a.nodeId.raw), UV(a.sequence), UV(a.configSeq)]
  }

  lemma HeadValsFit(a: Announcement)
    ensures AllFit(FrontVals(a)) && AllFit(BackVals(a))
    ensures HaveFrom(HEAD_SCHEMA, 1, FrontVals(a)) && HaveFrom(HEAD_SCHEMA, 4, BackVals(a))
    ensures Fits(|a.vaultName|) ==> AllFit(HeadVals(a))
    ensures Fits(|a.vaultName|) && ValidUtf8(a.vaultName) ==> HaveFrom(HEAD_SCHEMA, 1, HeadVals(a))
  {
    hide ValidUtf8;
  }

  // ---------------------------------------------------------------------------------------------
  // The sign preimage: seven pairs behind a map header that says six
  // ---------------------------------------------------------------------------------------------

  function HeadSignBody(a: Announcement): bytes {
    HeadValsFit(a);
    UintBytes(5, 6) + (KeyedBytes(1, FrontVals(a)) + KeyedBytes(4, BackVals(a)))
  }

  function HeadMessage(a: Announcement): bytes { Frame(DOMAIN_HEAD, HeadSignBody(a)) }

  /** `head_sign_message` */
  method EncodeHeadMessage(a: Announcement) returns (r: bytes)
    ensures r == HeadMessage(a)
  {
    hide KeyedBytes, UintBytes;
    HeadValsFit(a);
    var buf := new Buffer();
    buf.PushUint(5, 6);
    ghost var header := buf.data;
    assert header == UintBytes(5, 6) by { assert [] + UintBytes(5, 6) == UintBytes(5, 6); }
    ghost var xs, ys := FrontVals(a), BackVals(a);
    NoneKeyed(header, 1, xs);
    WriteNth(buf, header, 1, xs, 0, UV(a.version));
    WriteNth(buf, header, 1, xs, 1, BV(a.vaultId));
    ghost var front := buf.data;
    NoneKeyed(front, 4, ys);
    WriteNth(buf, front, 4, ys, 0, BV(a.head.raw));
    WriteNth(buf, front, 4, ys, 1, UV(a.timestamp));
    WriteNth(buf, front, 4, ys, 2, BV(a.nodeId.raw));
    WriteNth(buf, front, 4, ys, 3, UV(a.sequence));
    WriteNth(buf, front, 4, ys, 4, UV(a.configSeq));
    Assoc(header, KeyedBytes(1, FrontVals(a)), KeyedBytes(4, BackVals(a)));
    r := Frame(DOMAIN_HEAD, buf.data);
  }

  /** The two announcements agree on the seven signed fields. */
  predicate SameSigned(a: Announcement, b: Announcement) {
    && a.version == b.version && a.vaultId == b.vaultId && a.head == b.head && a.timestamp == b.timestamp
    && a.nodeId == b.nodeId && a.sequence == b.sequence && a.configSeq == b.configSeq
  }

  /** The preimage determines the seven signed fields and depends on nothing else. */
  lemma HeadMessageInjective(a: Announcement, b: Announcement)
    ensures HeadMessage(a) == HeadMessage(b) <==>
              && a.version == b.version && a.vaultId == b.vaultId && a.head == b.head && a.timestamp == b.timestamp
              && a.nodeId == b.nodeId && a.sequence == b.sequence && a.configSeq == b.configSeq
  {
    hide KeyedBytes, UintBytes, HaveFrom;
    HeadValsFit(a);
    HeadValsFit(b);
    if HeadMessage(a) == HeadMessage(b) {
      FrameRoundTrip(DOMAIN_HEAD, HeadSignBody(a));
      FrameRoundTrip(DOMAIN_HEAD, HeadSignBody(b));
      var d := HeadSignBody(a);
      StandsIn(a, d);
      StandsIn(b, d);
      KeyedInjective(d, 1, 1, FrontVals(a), FrontVals(b), HEAD_SCHEMA);
      KeyedInjective(d, 1 + |KeyedBytes(1, FrontVals(a))|, 4, BackVals(a), BackVals(b), HEAD_SCHEMA);
      assert FrontVals(a)[0] == FrontVals(b)[0] && FrontVals(a)[1] == FrontVals(b)[1];
      var x, y := BackVals(a), BackVals(b);
      assert x[0] == y[0] && x[1] == y[1] && x[2] == y[2] && x[3] == y[3] && x[4] == y[4];
    }
  }

  lemma StandsIn(a: Announcement, d: bytes)
    requires d == HeadSignBody(a)
    ensures AllFit(FrontVals(a)) && AllFit(BackVals(a))
    ensures At(d, 1, KeyedBytes(1, FrontVals(a)))
    ensures At(d, 1 + |KeyedBytes(1, FrontVals(a))|, KeyedBytes(4, BackVals(a)))
  {
    hide KeyedBytes;
    HeadValsFit(a);
    var header, front, back := UintBytes(5, 6), KeyedBytes(1, FrontVals(a)), KeyedBytes(4, BackVals(a));
    assert At(d, 0, d);
    AtConcat(d, 0, header, front + back);
    AtConcat(d, 1, front, back);
  }

  // ---------------------------------------------------------------------------------------------
  // Separation
  // ---------------------------------------------------------------------------------------------

  /** Commit wires, commit preimages, head preimages and tree wires never coincide across kinds. */
  lemma PreimagesSeparate(H: bytes -> Cid, c: Commit, c': Commit, a: Announcement, t: TreeMap)
    requires CommitFits(c) && CommitFits(c') && Encodable(t)
    ensures CommitWire(H, c) != SignMessage(H, c')
    ensures HeadMessage(a) != CommitWire(H, c) && HeadMessage(a) != SignMessage(H, c')
    ensures TreeWire(t) != CommitWire(H, c) && TreeWire(t) != SignMessage(H, c') && TreeWire(t) != HeadMessage(a)
  {
    hide KeyedBytes, TreeBody, HeadSignBody, Frame, Encodable;
    DomainsDiffer();
    ValsFit(H, c);
    ValsFit(H, c');
    var wire, preimage := CommitBody(H, c), RecordBytes(SignedVals(H, c'));
    FrameRoundTrip(DOMAIN_COMMIT, wire);
    FrameRoundTrip(DOMAIN_COMMIT, preimage);
    FirstByte(CommitVals(H, c));
    FirstByte(SignedVals(H, c'));
    assert wire != preimage;
    FramesDiffer(DOMAIN_HEAD, DOMAIN_COMMIT, HeadSignBody(a), wire);
    FramesDiffer(DOMAIN_HEAD, DOMAIN_COMMIT, HeadSignBody(a), preimage);
    FramesDiffer(DOMAIN_TREE, DOMAIN_COMMIT, TreeBody(t), wire);
    FramesDiffer(DOMAIN_TREE, DOMAIN_COMMIT, TreeBody(t), preimage);
    FramesDiffer(DOMAIN_TREE, DOMAIN_HEAD, TreeBody(t), HeadSignBody(a));
  }

  lemma FirstByte(xs: seq<Val>)
    requires AllFit(xs) && |xs| < 24
    ensures RecordBytes(xs) != [] && RecordBytes(xs)[0] == 160 + |xs|
  {
    hide KeyedBytes;
  }

  // ---------------------------------------------------------------------------------------------
  // The gossip body
  // ---------------------------------------------------------------------------------------------

  function HeadBody(a: Announcement): bytes
    requires Fits(|a.vaultName|)
  {
    HeadValsFit(a);
    RecordBytes(HeadVals(a))
  }

  /** The check on the whole message never fires once the name has passed. */
  lemma HeadBodyIsSmall(a: Announcement)
    requires |a.vaultName| <= MAX_NAME_BYTES
    ensures |HeadBody(a)| <= MAX_MESSAGE_BYTES
  {
    hide KeyedBytes, UintBytes;
    HeadValsFit(a);
    var xs := HeadVals(a);
    assert forall i :: 0 <= i < |xs| ==> |ValBytes(xs[i])| <= 9 + MAX_NAME_BYTES;
    KeyedBound(1, xs, 9 + MAX_NAME_BYTES);
  }

  lemma U64IsShort(v: u64)
    ensures |U64Bytes(v)| <= 9
  {
  }

  lemma {:induction false} KeyedBound(k: nat, xs: seq<Val>, m: nat)
    requires AllFit(xs) && Fits(k + |xs|) && forall i :: 0 <= i < |xs| ==> |ValBytes(xs[i])| <= m
    ensures |KeyedBytes(k, xs)| <= |xs| * (9 + m)
    decreases |xs|
  {
    hide ValBytes, U64Bytes;
    if xs != [] {
      var rest := xs[1..];
      KeyedBound(k + 1, rest, m);
      U64IsShort(k);
      assert |KeyedBytes(k, xs)| <= 9 + m + |KeyedBytes(k + 1, rest)|;
      assert (1 + |rest|) * (9 + m) == (9 + m) + |rest| * (9 + m);
    }
  }

  /** `encode_head_announcement` */
  method EncodeHead(a: Announcement) returns (r: Result<bytes, CodecError>)
    ensures |a.vaultName| > MAX_NAME_BYTES ==> r == Err(TooLong)
    ensures |a.vaultName| <= MAX_NAME_BYTES ==>
              r == if |HeadBody(a)| > MAX_MESSAGE_BYTES then Err(TooLong) else Ok(HeadBody(a))
  {
    hide KeyedBytes, UintBytes, AllFit, HaveFrom, ValidUtf8;
    if |a.vaultName| > MAX_NAME_BYTES { return Err(TooLong); }
    HeadValsFit(a);
    var buf := new Buffer();
    buf.PushUint(5, 9);
    ghost var header, xs := buf.data, HeadVals(a);
    assert header == UintBytes(5, 9) by { assert [] + UintBytes(5, 9) == UintBytes(5, 9); }
    NoneKeyed(header, 1, xs);
    WriteNth(buf, header, 1, xs, 0, UV(a.version));
    WriteNth(buf, header, 1, xs, 1, BV(a.vaultId));
    WriteNth(buf, header, 1, xs, 2, TV(a.vaultName));
    WriteNth(buf, header, 1, xs, 3, BV(a.head.raw));
    WriteNth(buf, header, 1, xs, 4, UV(a.timestamp));
    WriteNth(buf, header, 1, xs, 5, BV(a.nodeId.raw));
    WriteNth(buf, header, 1, xs, 6, UV(a.sequence));
    WriteNth(buf, header, 1, xs, 7, UV(a.configSeq));
    WriteNth(buf, header, 1, xs, 8, BV(a.signature));
    if |buf.data| > MAX_MESSAGE_BYTES { return Err(TooLong); }
    r := Ok(buf.data);
  }

  function HeadFrom(vals: Vals): Announcement
    requires HasAll(vals, HEAD_SCHEMA)
  {
    assert Has(vals[1], HEAD_SCHEMA[0]) && Has(vals[2], HEAD_SCHEMA[1]) && Has(vals[3], HEAD_SCHEMA[2]);
    assert Has(vals[4], HEAD_SCHEMA[3]) && Has(vals[5], HEAD_SCHEMA[4]) && Has(vals[6], HEAD_SCHEMA[5]);
    assert Has(vals[7], HEAD_SCHEMA[6]) && Has(vals[8], HEAD_SCHEMA[7]) && Has(vals[9], HEAD_SCHEMA[8]);
    Announcement(vals[1].v, vals[2].s, vals[3].t, Cid(vals[4].s), vals[5].v, Cid(vals[6].s), vals[7].v, vals[8].v,
        vals[9].s)
  }

  /** `decode_head_announcement` */
  function DecodeHead(d: bytes): Result<Announcement, CodecError> {
    if |d| > MAX_MESSAGE_BYTES then Err(TooLong)
    else match ReadRecord(d, HEAD_SCHEMA)
      case Err(e) => Err(e)
      case Ok(vals) =>
        RecordHasAll(d, HEAD_SCHEMA);
        Ok(HeadFrom(vals))
  }

  /** What is announced is what is received, whole. */
  lemma HeadRoundTrips(a: Announcement)
    requires |a.vaultName| <= MAX_NAME_BYTES && ValidUtf8(a.vaultName)
    ensures DecodeHead(HeadBody(a)) == Ok(a)
  {
    hide Filled, RecordBytes, ReadRecord, ValidUtf8;
    var xs := HeadVals(a);
    HeadBodyIsSmall(a);
    HeadValsFit(a);
    RecordRoundTrip(xs, HEAD_SCHEMA);
    FilledAt(map[], 1, xs);
  }
}
