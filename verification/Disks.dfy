/** A vault directory as a value: chunk, tree and commit objects under their hashes, HEAD, HEADS and the
    snapshot registry; what loading and restoring from it means (src/vault.rs, src/store.rs). */
module Disks {
  import opened Bytes
  import opened Paths
  import opened Trees
  import opened Cbor
  import opened TreeCodec
  import opened Frames
  import opened Commits
  import opened Chunking

  datatype Error =
    | NotFound | HashMismatch | Collision | InvalidPath | Codec(code: CodecError) | BadSignature
    | SizeMismatch | Crypto | NothingToAdd | NoHead

  // ---------------------------------------------------------------------------------------------
  // What the vault takes on trust
  // ---------------------------------------------------------------------------------------------

  /** Chunk encryption: none, or deterministic authenticated encryption under the vault key. */
  datatype Cipher = Plain | Keyed(seal: bytes -> bytes, open: bytes -> Option<bytes>)

  function Seal(c: Cipher, p: bytes): bytes {
    match c case Plain => p case Keyed(seal, _) => seal(p)
  }

  function Unseal(c: Cipher, s: bytes): Option<bytes> {
    match c case Plain => Some(s) case Keyed(_, open) => open(s)
  }

  /** Who makes commits: nobody in particular, or a node with a key. */
  datatype Identity = Anonymous | Node(pk: Cid, sign: bytes -> bytes)

  /** The hash function, the signature relation, the vault key, the chunk boundaries and the local identity. */
  datatype Env = Env(H: bytes -> Cid, V: Verifier, cipher: Cipher, cut: bytes -> seq<Span>, who: Identity)

  /** Decryption inverts encryption, chunking covers its input, and a node signs what its key verifies.
      Nothing is assumed of the hash function. */
  ghost predicate Trusted(env: Env) {
    && (forall p :: Unseal(env.cipher, Seal(env.cipher, p)) == Some(p))
    && (forall data :: Contiguous(env.cut(data), |data|))
    && (env.who.Node? ==> forall m :: |env.who.sign(m)| == 64 && env.V(env.who.pk, m, env.who.sign(m)))
  }

  // ---------------------------------------------------------------------------------------------
  // State
  // ---------------------------------------------------------------------------------------------

  type Objects = map<Cid, bytes>

  datatype Disk = Disk(chunks: Objects, trees: Objects, commits: Objects, head: Option<Cid>, heads: set<Cid>,
      registry: seq<Cid>)

  const EMPTY := Disk(map[], map[], map[], None, {}, [])

  // ---------------------------------------------------------------------------------------------
  // Loading
  // ---------------------------------------------------------------------------------------------

  /** `load_tree` on the bytes found under `h`. Wires only: older JSON objects are not modelled. */
  function TreeOf(H: bytes -> Cid, h: Cid, w: bytes): Result<TreeMap, Error> {
    if H(w) != h then Err(HashMismatch)
    else match DecodeTreeWire(w)
      case Err(e) => Err(Codec(e))
      case Ok(t) =>
        DecodedTree(w);
        if H(TreeWire(t)) != h then Err(HashMismatch) else Ok(t)
  }

  function LoadTree(env: Env, d: Disk, h: Cid): Result<TreeMap, Error> {
    if h in d.trees then TreeOf(env.H, h, d.trees[h]) else Err(NotFound)
  }

  lemma DecodedCommit(H: bytes -> Cid, w: bytes)
    requires DecodeCommitWire(w).Ok?
    ensures GoodCommit(DecodeCommitWire(w).value)
  {
    hide DecodeCommit, CommitBody;
    CommitSlack(H, Unframe(DOMAIN_COMMIT, w).value);
  }

  /** `load_commit` on the bytes found under `h`. */
  function CommitOf(H: bytes -> Cid, h: Cid, w: bytes): Result<Commit, Error> {
    if H(w) != h then Err(HashMismatch)
    else match DecodeCommitWire(w)
      case Err(e) => Err(Codec(e))
      case Ok(c) =>
        DecodedCommit(H, w);
        if H(CommitWire(H, c)) != h then Err(HashMismatch) else Ok(c)
  }

  function LoadCommit(env: Env, d: Disk, h: Cid): Result<Commit, Error> {
    if h in d.commits then CommitOf(env.H, h, d.commits[h]) else Err(NotFound)
  }

  lemma LoadedTree(H: bytes -> Cid, h: Cid, w: bytes)
    requires TreeOf(H, h, w).Ok?
    ensures var t := TreeOf(H, h, w).value; WireTree(t) && Encodable(t) && H(w) == h
  {
    hide DecodeTreeWire, TreeWire;
    DecodedTree(w);
  }

  lemma LoadedCommit(H: bytes -> Cid, h: Cid, w: bytes)
    requires CommitOf(H, h, w).Ok?
    ensures GoodCommit(CommitOf(H, h, w).value) && H(w) == h
  {
    hide DecodeCommitWire, CommitWire;
    DecodedCommit(H, w);
  }

  /** What `save_tree` writes, `load_tree` reads back: the same tree. */
  lemma SavedTreeLoads(H: bytes -> Cid, t: TreeMap)
    requires WireTree(t) && Encodable(t)
    ensures TreeOf(H, H(TreeWire(t)), TreeWire(t)) == Ok(t)
  {
    hide TreeWire, DecodeTreeWire;
    TreeWireRoundTrip(t);
  }

  /** What `save_commit` writes, `load_commit` reads back: the commit's normal form. */
  lemma SavedCommitLoads(H: bytes -> Cid, c: Commit)
    requires GoodCommit(c)
    ensures CommitOf(H, H(CommitWire(H, c)), CommitWire(H, c)) == Ok(Normal(H, c))
  {
    hide CommitWire, DecodeCommitWire, Normal;
    CommitRoundTrip(H, c);
    NormalKeepsWire(H, c);
  }

  /** Every object on the disk hashes to its name; trees and commits load, and commits verify. */
  ghost predicate StoreOk(env: Env, d: Disk) {
    && (forall h :: h in d.chunks ==> env.H(d.chunks[h]) == h)
    && (forall h :: h in d.trees ==> TreeOf(env.H, h, d.trees[h]).Ok?)
    && (forall h :: h in d.commits ==> GoodObject(env, h, d.commits[h]))
  }

  predicate GoodObject(env: Env, h: Cid, w: bytes) {
    && CommitOf(env.H, h, w).Ok?
    && GoodCommit(CommitOf(env.H, h, w).value)
    && SignatureOk(env.H, env.V, CommitOf(env.H, h, w).value)
  }

  /** The bytes hash to the name, decode to a commit that re-encodes to the same hash, and bear 64 zeros for a signature
      or 64 bytes that the key of the author verifies on the preimage. */
  ghost predicate Admissible(env: Env, h: Cid, w: bytes) {
    && env.H(w) == h && DecodeCommitWire(w).Ok? && CommitFits(DecodeCommitWire(w).value)
    && env.H(CommitWire(env.H, DecodeCommitWire(w).value)) == h
    && exists author: Cid, sig: bytes ::
         && |sig| == 64 && DecodeCommitWire(w).value.author == HexEncode(author.raw)
         && DecodeCommitWire(w).value.signature == Some(HexEncode(sig))
         && (sig == seq(64, i => 0) || env.V(author, SignMessage(env.H, DecodeCommitWire(w).value), sig))
  }

  /** Such commit objects, and no others, are good. */
  lemma ObjectExact(env: Env, h: Cid, w: bytes)
    ensures GoodObject(env, h, w) <==> Admissible(env, h, w)
  {
    hide DecodeCommitWire, CommitWire, SignMessage, SignatureOk, HexEncode, ValidUtf8;
    if DecodeCommitWire(w).Ok? {
      DecodedCommit(env.H, w);
      var author, sig := DecodedSigned(w);
      RefusedExactly(env.H, env.V, w, author, sig);
      forall x: Cid, y: bytes | HexEncode(x.raw) == HexEncode(author.raw) && HexEncode(y) == HexEncode(sig)
        ensures x == author && y == sig
      {
        HexRoundTrip(x.raw);
        HexRoundTrip(author.raw);
        HexRoundTrip(y);
        HexRoundTrip(sig);
      }
    }
  }

  /** In a sound store every commit with a signature that is not all zeros is verified by its author's key. */
  lemma StoredCommitsVerify(env: Env, d: Disk, h: Cid, author: Cid, sig: bytes)
    requires StoreOk(env, d) && h in d.commits && DecodeCommitWire(d.commits[h]).Ok? && |sig| == 64
    requires DecodeCommitWire(d.commits[h]).value.author == HexEncode(author.raw)
    requires DecodeCommitWire(d.commits[h]).value.signature == Some(HexEncode(sig)) && sig != seq(64, i => 0)
    ensures CommitFits(DecodeCommitWire(d.commits[h]).value)
    ensures env.V(author, SignMessage(env.H, DecodeCommitWire(d.commits[h]).value), sig)
  {
    hide DecodeCommitWire, CommitWire, SignMessage, SignatureOk, HexEncode, ValidUtf8, TreeOf, DecodeTreeWire;
    assert GoodObject(env, h, d.commits[h]);
    DecodedCommit(env.H, d.commits[h]);
    RefusedExactly(env.H, env.V, d.commits[h], author, sig);
  }

  /** The same of all commits. */
  ghost predicate AllVerified(env: Env, d: Disk) {
    forall h, author: Cid, sig: bytes ::
      && h in d.commits && DecodeCommitWire(d.commits[h]).Ok? && |sig| == 64
      && DecodeCommitWire(d.commits[h]).value.author == HexEncode(author.raw)
      && DecodeCommitWire(d.commits[h]).value.signature == Some(HexEncode(sig)) && sig != seq(64, i => 0)
      ==> CommitFits(DecodeCommitWire(d.commits[h]).value)
          && env.V(author, SignMessage(env.H, DecodeCommitWire(d.commits[h]).value), sig)
  }

  lemma SoundIsVerified(env: Env, d: Disk)
    requires StoreOk(env, d)
    ensures AllVerified(env, d)
  {
    hide DecodeCommitWire, SignMessage, HexEncode, StoreOk;
    forall h, author: Cid, sig: bytes |
      && h in d.commits && DecodeCommitWire(d.commits[h]).Ok? && |sig| == 64
      && DecodeCommitWire(d.commits[h]).value.author == HexEncode(author.raw)
      && DecodeCommitWire(d.commits[h]).value.signature == Some(HexEncode(sig)) && sig != seq(64, i => 0)
      ensures CommitFits(DecodeCommitWire(d.commits[h]).value)
      ensures env.V(author, SignMessage(env.H, DecodeCommitWire(d.commits[h]).value), sig)
    {
      StoredCommitsVerify(env, d, h, author, sig);
    }
  }

  /** A tree object loads if and only if it hashes to its name, decodes, and re-encodes to the same hash; so it is the
      tree's own encoding unless the two collide. */
  lemma TreeObjectExact(env: Env, h: Cid, w: bytes, t: TreeMap)
    requires Encodable(t)
    ensures TreeOf(env.H, h, w) == Ok(t) <==> env.H(w) == h && DecodeTreeWire(w) == Ok(t) && env.H(TreeWire(t)) == h
  {
    hide DecodeTreeWire, TreeWire;
  }

  // ---------------------------------------------------------------------------------------------
  // Restoring
  // ---------------------------------------------------------------------------------------------

  /** One chunk as `restore` reads it: verified, decrypted, and re-derived. */
  function ReadChunk(env: Env, m: Objects, h: Cid): Option<bytes> {
    if h !in m || env.H(m[h]) != h then None
    else match Unseal(env.cipher, m[h])
      case None => None
      case Some(p) => if env.H(Seal(env.cipher, p)) == h then Some(p) else None
  }

  function ReadChunks(env: Env, m: Objects, ids: seq<Cid>): Option<bytes> {
    if ids == [] then Some([])
    else match (ReadChunks(env, m, ids[..|ids| - 1]), ReadChunk(env, m, ids[|ids| - 1]))
      case (Some(front), Some(p)) => Some(front + p)
      case _ => None
  }

  function FileBytes(env: Env, m: Objects, e: Entry): Option<bytes>
    requires e.File?
  {
    match ReadChunks(env, m, e.chunks)
    case None => None
    case Some(data) => if |data| == e.size then Some(data) else None
  }

  type Files = map<Path, bytes>

  predicate Restorable(env: Env, m: Objects, t: TreeMap) {
    forall k :: k in t && t[k].File? ==> NormalizeAndValidate(k) == Some(k) && FileBytes(env, m, t[k]).Some?
  }

  /** The files `restore` writes, or nothing if it fails. */
  function RestoreTree(env: Env, m: Objects, t: TreeMap): Option<Files> {
    if Restorable(env, m, t) then Some(map k | k in t && t[k].File? :: FileBytes(env, m, t[k]).value) else None
  }

  function Restore(env: Env, d: Disk, c: Cid): Option<Files> {
    match LoadCommit(env, d, c)
    case Err(_) => None
    case Ok(commit) =>
      match LoadTree(env, d, commit.tree)
      case Err(_) => None
      case Ok(t) => RestoreTree(env, d.chunks, t)
  }

  /** What can be read whole is here whole. */
  lemma {:induction false} ReadIsHere(env: Env, m: Objects, ids: seq<Cid>)
    requires ReadChunks(env, m, ids).Some?
    ensures forall i :: 0 <= i < |ids| ==> ids[i] in m
    decreases |ids|
  {
    hide Seal, Unseal;
    if ids != [] { ReadIsHere(env, m, ids[..|ids| - 1]); }
  }

  lemma RestoredHasChunks(env: Env, m: Objects, t: TreeMap)
    requires RestoreTree(env, m, t).Some?
    ensures HasChunks(m, t)
  {
    hide ReadChunks, NormalizeAndValidate;
    forall k, h | k in t && t[k].File? && h in t[k].chunks ensures h in m {
      assert FileBytes(env, m, t[k]).Some?;
      ReadIsHere(env, m, t[k].chunks);
    }
  }

  /** A file is read if and only if each of its chunks is here, hashes to its name, opens to a part and is what sealing
      that part again gives; the parts one after the other are then the file, and of the size that the entry states. */
  lemma FileReadsExactly(env: Env, m: Objects, e: Entry, data: bytes)
    requires e.File?
    ensures FileBytes(env, m, e) == Some(data) <==>
              && |data| == e.size
              && exists parts: seq<bytes> ::
                   && |parts| == |e.chunks| && Concat(parts) == data
                   && forall i :: 0 <= i < |parts| ==>
                        && e.chunks[i] in m && env.H(m[e.chunks[i]]) == e.chunks[i]
                        && (match env.cipher
                            case Plain => m[e.chunks[i]] == parts[i]
                            case Keyed(seal, open) =>
                              open(m[e.chunks[i]]) == Some(parts[i]) && env.H(seal(parts[i])) == e.chunks[i])
  {
    hide ReadChunk;
    if FileBytes(env, m, e) == Some(data) {
      var parts := PartsRead(env, m, e.chunks);
    }
    forall parts: seq<bytes> | |parts| == |e.chunks| && (forall i :: 0 <= i < |parts| ==>
        && e.chunks[i] in m && env.H(m[e.chunks[i]]) == e.chunks[i]
        && (match env.cipher
            case Plain => m[e.chunks[i]] == parts[i]
            case Keyed(seal, open) => open(m[e.chunks[i]]) == Some(parts[i]) && env.H(seal(parts[i])) == e.chunks[i]))
      ensures ReadChunks(env, m, e.chunks) == Some(Concat(parts))
    {
      forall i | 0 <= i < |parts| ensures ReadChunk(env, m, e.chunks[i]) == Some(parts[i]) {
        ChunkReadsExactly(env, m, e.chunks[i], parts[i]);
      }
      PartsGiveData(env, m, e.chunks, parts);
    }
  }

  lemma ChunkReadsExactly(env: Env, m: Objects, h: Cid, p: bytes)
    ensures ReadChunk(env, m, h) == Some(p) <==>
              && h in m && env.H(m[h]) == h
              && (match env.cipher
                  case Plain => m[h] == p
                  case Keyed(seal, open) => open(m[h]) == Some(p) && env.H(seal(p)) == h)
  {
  }

  lemma {:induction false} PartsRead(env: Env, m: Objects, ids: seq<Cid>) returns (parts: seq<bytes>)
    requires ReadChunks(env, m, ids).Some?
    ensures |parts| == |ids| && ReadChunks(env, m, ids) == Some(Concat(parts))
    ensures forall i :: 0 <= i < |parts| ==>
              && ids[i] in m && env.H(m[ids[i]]) == ids[i]
              && (match env.cipher
                  case Plain => m[ids[i]] == parts[i]
                  case Keyed(seal, open) => open(m[ids[i]]) == Some(parts[i]) && env.H(seal(parts[i])) == ids[i])
    decreases |ids|
  {
    hide ReadChunk;
    parts := [];
    if ids != [] {
      var n := |ids| - 1;
      var front := PartsRead(env, m, ids[..n]);
      var last := ReadChunk(env, m, ids[n]).value;
      ChunkReadsExactly(env, m, ids[n], last);
      parts := front + [last];
      assert parts[..n] == front;
    }
  }

  lemma {:induction false} PartsGiveData(env: Env, m: Objects, ids: seq<Cid>, parts: seq<bytes>)
    requires |parts| == |ids| && forall i :: 0 <= i < |parts| ==> ReadChunk(env, m, ids[i]) == Some(parts[i])
    ensures ReadChunks(env, m, ids) == Some(Concat(parts))
    decreases |ids|
  {
    hide ReadChunk;
    if ids != [] { PartsGiveData(env, m, ids[..|ids| - 1], parts[..|parts| - 1]); }
  }

  /** What is restored: one file for each file entry of the commit's tree, with that entry's bytes, and no others. */
  lemma RestoreExact(env: Env, d: Disk, c: Cid, files: Files)
    ensures Restore(env, d, c) == Some(files) <==>
              && LoadCommit(env, d, c).Ok? && LoadTree(env, d, LoadCommit(env, d, c).value.tree).Ok?
              && var t := LoadTree(env, d, LoadCommit(env, d, c).value.tree).value;
                 && (forall k :: k in files <==> k in t && t[k].File?)
                 && (forall k :: k in files ==>
                      NormalizeAndValidate(k) == Some(k) && FileBytes(env, d.chunks, t[k]) == Some(files[k]))
  {
    hide TreeOf, CommitOf, FileBytes, NormalizeAndValidate;
    if Loads(env, d, c) { RestoreTreeExact(env, d.chunks, TreeAt(env, d, c), files); }
  }

  lemma RestoreTreeExact(env: Env, m: Objects, t: TreeMap, files: Files)
    ensures RestoreTree(env, m, t) == Some(files) <==>
              && (forall k :: k in files <==> k in t && t[k].File?)
              && (forall k :: k in files ==>
                   NormalizeAndValidate(k) == Some(k) && FileBytes(env, m, t[k]) == Some(files[k]))
  {
    hide FileBytes, NormalizeAndValidate;
    if Restorable(env, m, t) {
      var a := RestoreTree(env, m, t).value;
      if forall k :: k in a <==> k in files { assert (forall k :: k in a ==> a[k] == files[k]) ==> a == files; }
    }
  }

  /** The commit and its tree load. */
  predicate Loads(env: Env, d: Disk, c: Cid) {
    LoadCommit(env, d, c).Ok? && LoadTree(env, d, LoadCommit(env, d, c).value.tree).Ok?
  }

  function TreeAt(env: Env, d: Disk, c: Cid): TreeMap
    requires Loads(env, d, c)
  {
    LoadTree(env, d, LoadCommit(env, d, c).value.tree).value
  }

  predicate HasChunks(m: Objects, t: TreeMap) {
    forall k, h :: k in t && t[k].File? && h in t[k].chunks ==> h in m
  }

  /** `is_complete` answers yes. */
  predicate Complete(env: Env, d: Disk, c: Cid) {
    Loads(env, d, c) && HasChunks(d.chunks, TreeAt(env, d, c))
  }

  // ---------------------------------------------------------------------------------------------
  // Two disks that agree on what a commit needs
  // ---------------------------------------------------------------------------------------------

  ghost predicate SameAt(d: Disk, d': Disk, c: Cid, tree: Cid, t: TreeMap) {
    && c in d.commits && c in d'.commits && d'.commits[c] == d.commits[c]
    && tree in d.trees && tree in d'.trees && d'.trees[tree] == d.trees[tree]
    && SameChunks(d.chunks, d'.chunks, t)
  }

  ghost predicate SameChunks(m: Objects, m': Objects, t: TreeMap) {
    forall k, h :: k in t && t[k].File? && h in t[k].chunks && h in m ==> h in m' && m'[h] == m[h]
  }

  lemma {:induction false} SameReadChunks(env: Env, m: Objects, m': Objects, ids: seq<Cid>)
    requires forall i :: 0 <= i < |ids| ==> ids[i] in m && ids[i] in m' && m'[ids[i]] == m[ids[i]]
    ensures ReadChunks(env, m', ids) == ReadChunks(env, m, ids)
    decreases |ids|
  {
    if ids != [] {
      SameReadChunks(env, m, m', ids[..|ids| - 1]);
    }
  }

  lemma SameRestoreTree(env: Env, m: Objects, m': Objects, t: TreeMap)
    requires HasChunks(m, t) && SameChunks(m, m', t)
    ensures HasChunks(m', t) && RestoreTree(env, m', t) == RestoreTree(env, m, t)
  {
    hide ReadChunks, NormalizeAndValidate;
    forall k | k in t && t[k].File? ensures FileBytes(env, m', t[k]) == FileBytes(env, m, t[k]) {
      var ids := t[k].chunks;
      assert forall i :: 0 <= i < |ids| ==> ids[i] in ids;
      SameReadChunks(env, m, m', ids);
    }
    if Restorable(env, m, t) {
      var a, b := RestoreTree(env, m, t).value, RestoreTree(env, m', t).value;
      assert a == b by { assert forall k :: k in a ==> k in b && a[k] == b[k]; }
    }
  }

  /** A complete commit is restored the same from any disk that agrees on its objects. */
  lemma SameRestore(env: Env, d: Disk, d': Disk, c: Cid)
    requires Loads(env, d, c) && SameAt(d, d', c, LoadCommit(env, d, c).value.tree, TreeAt(env, d, c))
    ensures Loads(env, d', c) && TreeAt(env, d', c) == TreeAt(env, d, c)
              && LoadCommit(env, d', c) == LoadCommit(env, d, c)
    ensures Complete(env, d, c) ==> Complete(env, d', c) && Restore(env, d', c) == Restore(env, d, c)
  {
    hide CommitOf, TreeOf, RestoreTree;
    if Complete(env, d, c) {
      SameRestoreTree(env, d.chunks, d'.chunks, TreeAt(env, d, c));
    }
  }

  /** `d'` has every object of `d`. */
  ghost predicate Extends(d: Disk, d': Disk) {
    && (forall h :: h in d.chunks ==> h in d'.chunks && d'.chunks[h] == d.chunks[h])
    && (forall h :: h in d.trees ==> h in d'.trees && d'.trees[h] == d.trees[h])
    && (forall h :: h in d.commits ==> h in d'.commits && d'.commits[h] == d.commits[h])
  }

  lemma ExtendsRestore(env: Env, d: Disk, d': Disk, c: Cid)
    requires Extends(d, d') && Loads(env, d, c)
    ensures Loads(env, d', c) && TreeAt(env, d', c) == TreeAt(env, d, c)
              && LoadCommit(env, d', c) == LoadCommit(env, d, c)
    ensures Complete(env, d, c) ==> Complete(env, d', c) && Restore(env, d', c) == Restore(env, d, c)
  {
    hide CommitOf, TreeOf, RestoreTree;
    SameRestore(env, d, d', c);
  }

  // ---------------------------------------------------------------------------------------------
  // Storing
  // ---------------------------------------------------------------------------------------------

  /** A chunk that was sealed, stored under its hash and read back is the chunk. */
  lemma StoredChunkReads(env: Env, m: Objects, p: bytes)
    requires Trusted(env)
    requires var s := Seal(env.cipher, p); env.H(s) in m && m[env.H(s)] == s
    ensures ReadChunk(env, m, env.H(Seal(env.cipher, p))) == Some(p)
  {
  }

  function Ids(env: Env, parts: seq<bytes>): (ids: seq<Cid>)
    ensures |ids| == |parts|
  {
    seq(|parts|, i requires 0 <= i < |parts| => env.H(Seal(env.cipher, parts[i])))
  }

  ghost predicate Holds(env: Env, m: Objects, parts: seq<bytes>) {
    forall i :: 0 <= i < |parts| ==>
      var s := Seal(env.cipher, parts[i]); env.H(s) in m && m[env.H(s)] == s
  }

  /** A file whose chunks are stored is read back whole. */
  lemma {:induction false} StoredFileReads(env: Env, m: Objects, parts: seq<bytes>)
    requires Trusted(env) && Holds(env, m, parts)
    ensures ReadChunks(env, m, Ids(env, parts)) == Some(Concat(parts))
    decreases |parts|
  {
    hide Trusted, ReadChunk;
    if parts != [] {
      var front := parts[..|parts| - 1];
      assert Holds(env, m, front) by {
        assert forall i :: 0 <= i < |front| ==> front[i] == parts[i];
      }
      StoredFileReads(env, m, front);
      assert Ids(env, parts)[..|parts| - 1] == Ids(env, front);
      StoredChunkReads(env, m, parts[|parts| - 1]);
    }
  }
}
