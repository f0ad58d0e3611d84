/** `chunk_bytes` of src/chunking.rs: the boundaries come from a library, the cover property is what it promises. */
module Chunking {
  import opened Bytes

  /** A chunk boundary pair as the library yields it. */
  datatype Span = Span(offset: nat, length: nat)

  function Concat(parts: seq<bytes>): bytes {
    if parts == [] then [] else Concat(parts[..|parts| - 1]) + parts[|parts| - 1]
  }

  /** The spans follow each other from the start of the data; `end` is where the last one ends. */
  predicate Contiguous(spans: seq<Span>, end: nat) {
    if spans == [] then end == 0
    else
      var last := spans[|spans| - 1];
      last.offset + last.length == end && Contiguous(spans[..|spans| - 1], last.offset)
  }

  /** The pieces the loop keeps: those that end within the data. */
  function Pieces(data: bytes, spans: seq<Span>): seq<bytes> {
    if spans == [] then []
    else
      var front, last := Pieces(data, spans[..|spans| - 1]), spans[|spans| - 1];
      if last.offset + last.length <= |data| then front + [data[last.offset..last.offset + last.length]] else front
  }

  /** What `chunk_bytes` returns. */
  function Chunks(data: bytes, spans: seq<Span>): seq<bytes> {
    if data == [] then []
    else if Pieces(data, spans) == [] then [data]
    else Pieces(data, spans)
  }

  method ChunkBytes(data: bytes, spans: seq<Span>) returns (chunks: seq<bytes>)
    ensures chunks == Chunks(data, spans)
  {
    if data == [] { return []; }
    chunks := [];
    for i := 0 to |spans|
      invariant chunks == Pieces(data, spans[..i])
    {
      var start, end := spans[i].offset, spans[i].offset + spans[i].length;
      assert spans[..i + 1][..i] == spans[..i];
      if end <= |data| {
        chunks := chunks + [data[start..end]];
      }
    }
    assert spans[..|spans|] == spans;
    if chunks == [] {
      chunks := [data];
    }
  }

  lemma {:induction false} PiecesCover(data: bytes, spans: seq<Span>, end: nat)
    requires Contiguous(spans, end) && end <= |data|
    ensures Concat(Pieces(data, spans)) == data[..end]
    decreases |spans|
  {
    if spans != [] {
      var last := spans[|spans| - 1];
      var front := Pieces(data, spans[..|spans| - 1]);
      PiecesCover(data, spans[..|spans| - 1], last.offset);
      var all := front + [data[last.offset..end]];
      assert all[..|all| - 1] == front;
      assert data[..end] == data[..last.offset] + data[last.offset..end];
    }
  }

  /** Chunks put together again are the data. */
  lemma ChunksCover(data: bytes, spans: seq<Span>)
    requires Contiguous(spans, |data|)
    ensures Concat(Chunks(data, spans)) == data
  {
    PiecesCover(data, spans, |data|);
    assert data[..|data|] == data;
    assert [data][..0] == [];
  }

  /** Under contiguous spans nothing is left out, and the `i`th chunk is what the `i`th span covers. */
  lemma ChunksAreSpans(data: bytes, spans: seq<Span>)
    requires Contiguous(spans, |data|) && data != []
    ensures |Chunks(data, spans)| == |spans|
    ensures forall i :: 0 <= i < |spans| ==>
              && spans[i].offset + spans[i].length <= |data|
              && Chunks(data, spans)[i] == data[spans[i].offset..spans[i].offset + spans[i].length]
  {
    PiecesAreSpans(data, spans, |data|);
  }

  lemma {:induction false} PiecesAreSpans(data: bytes, spans: seq<Span>, end: nat)
    requires Contiguous(spans, end) && end <= |data|
    ensures |Pieces(data, spans)| == |spans|
    ensures forall i :: 0 <= i < |spans| ==>
              && spans[i].offset + spans[i].length <= |data|
              && Pieces(data, spans)[i] == data[spans[i].offset..spans[i].offset + spans[i].length]
    decreases |spans|
  {
    if spans != [] { PiecesAreSpans(data, spans[..|spans| - 1], spans[|spans| - 1].offset); }
  }
}
