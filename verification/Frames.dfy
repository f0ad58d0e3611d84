/** The 16-byte domain frame of src/codec.rs, and the wires of trees. */
module Frames {
  import opened Bytes
  import opened Trees
  import opened Cbor
  import opened TreeCodec

  type Domain = d: bytes | |d| == 16 witness seq(16, _ => 0)

  // "soal/tree/v1", "soal/commit/v1" and "soal/head/v1", padded with NUL
  const DOMAIN_TREE: Domain := [115, 111, 97, 108, 47, 116, 114, 101, 101, 47, 118, 49, 0, 0, 0, 0]
  const DOMAIN_COMMIT: Domain := [115, 111, 97, 108, 47, 99, 111, 109, 109, 105, 116, 47, 118, 49, 0, 0]
  const DOMAIN_HEAD: Domain := [115, 111, 97, 108, 47, 104, 101, 97, 100, 47, 118, 49, 0, 0, 0, 0]

  function Frame(domain: Domain, body: bytes): bytes { domain + body }

  function Unframe(domain: Domain, wire: bytes): Result<bytes, CodecError> {
    if |wire| < 16 then Err(Truncated)
    else if wire[..16] != domain then Err(WrongDomain)
    else Ok(wire[16..])
  }

  lemma FrameRoundTrip(domain: Domain, body: bytes)
    ensures Unframe(domain, Frame(domain, body)) == Ok(body)
  {
    CutConcat(domain, body);
  }

  /** A wire is accepted under a domain if and only if it is the frame of what is returned. */
  lemma UnframeExact(domain: Domain, wire: bytes)
    ensures Unframe(domain, wire).Ok? ==> wire == Frame(domain, Unframe(domain, wire).value)
    ensures forall body :: wire == Frame(domain, body) ==> Unframe(domain, wire) == Ok(body)
  {
    if |wire| >= 16 {
      TakeDrop(wire, 16);
    }
    forall body | wire == Frame(domain, body) ensures Unframe(domain, wire) == Ok(body) {
      FrameRoundTrip(domain, body);
    }
  }

  lemma DomainsDiffer()
    ensures DOMAIN_TREE != DOMAIN_COMMIT && DOMAIN_TREE != DOMAIN_HEAD && DOMAIN_COMMIT != DOMAIN_HEAD
  {
    assert DOMAIN_TREE[5] == 116 && DOMAIN_COMMIT[5] == 99 && DOMAIN_HEAD[5] == 104;
  }

  /** Wires of different domains are different, whatever their bodies. */
  lemma FramesDiffer(a: Domain, b: Domain, x: bytes, y: bytes)
    requires a != b
    ensures Frame(a, x) != Frame(b, y)
  {
    CutConcat(a, x);
    CutConcat(b, y);
  }

  function TreeWire(t: TreeMap): bytes
    requires Encodable(t)
  {
    Frame(DOMAIN_TREE, TreeBody(t))
  }

  function DecodeTreeWire(w: bytes): Result<TreeMap, CodecError> {
    match Unframe(DOMAIN_TREE, w)
    case Err(e) => Err(e)
    case Ok(body) => DecodeTree(body)
  }

  lemma TreeWireRoundTrip(t: TreeMap)
    requires WireTree(t) && Encodable(t)
    ensures DecodeTreeWire(TreeWire(t)) == Ok(t)
  {
    hide TreeBody, DecodeTree, Encodable;
    FrameRoundTrip(DOMAIN_TREE, TreeBody(t));
    TreeRoundTrip(t);
  }

  /** What `decode_tree_wire` accepts is a tree the encoder accepts too. */
  lemma DecodedTree(w: bytes)
    requires DecodeTreeWire(w).Ok?
    ensures var t := DecodeTreeWire(w).value; WireTree(t) && Encodable(t)
  {
    hide DecodeTree, TreeBody;
    TreeSlack(Unframe(DOMAIN_TREE, w).value);
  }
}
