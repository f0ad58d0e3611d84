/** What an add puts into a vault: where its files go, and what the new version holds. */
module Adding {
  import opened Bytes
  import opened PathRules
  import opened Paths
  import opened Trees
  import opened Cbor
  import opened TreeCodec
  import opened Frames
  import opened Commits
  import opened Disks
  import opened Versions
  import opened Chunking

  /** What `add_path` finds on the file system: a file, a folder's files in walk order by relative name, or neither. */
  datatype Source = OneFile(data: bytes) | Folder(files: seq<(bytes, bytes)>) | Neither

  /** Names are Rust strings, and a file in memory has a 64-bit length. */
  predicate SourceFits(src: Source) {
    match src
    case OneFile(data) => Fits(|data|)
    case Folder(files) => forall i :: 0 <= i < |files| ==> ValidUtf8(files[i].0) && Fits(|files[i].1|)
    case Neither => true
  }

  predicate FilesFit(fs: seq<(Path, bytes)>) { forall i :: 0 <= i < |fs| ==> Fits(|fs[i].1|) }

  /** The logical base name; empty stays empty. */
  function Base(base: bytes): Option<Path> {
    if base == [] then Some([]) else NormalizeAndValidate(base)
  }

  /** Where a folder's file goes. */
  function Place(base: Path, rel: bytes): Option<Path> {
    match NormalizeAndValidate(rel)
    case None => None
    case Some(r) => NormalizeAndValidate(if base == [] then r else base + [SLASH] + r)
  }

  function PlaceAll(base: Path, files: seq<(bytes, bytes)>): Option<seq<(Path, bytes)>> {
    if files == [] then Some([])
    else
      var n := |files| - 1;
      match (PlaceAll(base, files[..n]), Place(base, files[n].0))
      case (Some(l), Some(p)) => Some(l + [(p, files[n].1)])
      case _ => None
  }

  /** The files an add puts into the vault, in order, or nothing if it refuses. */
  function Added(base: bytes, src: Source): Option<seq<(Path, bytes)>> {
    match Base(base)
    case None => None
    case Some(b) =>
      match src
      case OneFile(data) => if b == [] then None else Some([(b, data)])
      case Folder(files) =>
        (match PlaceAll(b, files)
         case Some(l) => if l == [] then None else Some(l)
         case None => None)
      case Neither => None
  }

  lemma {:induction false} PlacedFit(base: Path, files: seq<(bytes, bytes)>)
    requires SourceFits(Folder(files)) && PlaceAll(base, files).Some?
    ensures FilesFit(PlaceAll(base, files).value)
    decreases |files|
  {
    hide Place, ValidUtf8;
    if files != [] {
      var n := |files| - 1;
      PlacedFit(base, files[..n]);
    }
  }

  lemma AddedFit(base: bytes, src: Source)
    requires SourceFits(src) && Added(base, src).Some?
    ensures FilesFit(Added(base, src).value)
  {
    hide PlaceAll, NormalizeAndValidate, ValidUtf8;
    if src.Folder? { PlacedFit(Base(base).value, src.files); }
  }

  /** Every place is a path the wire can carry. */
  lemma PlaceIsWirePath(base: Path, rel: bytes)
    requires ValidUtf8(base) && ValidUtf8(rel)
    ensures Place(base, rel).Some? ==> WirePath(Place(base, rel).value)
  {
    hide ValidPath, ValidUtf8, NormalizeAndValidate;
    NormalizedIsWirePath(rel);
    if NormalizeAndValidate(rel).Some? {
      var r := NormalizeAndValidate(rel).value;
      SlashIsUtf8();
      Utf8Concat(base, [SLASH]);
      Utf8Concat(base + [SLASH], r);
      NormalizedIsWirePath(if base == [] then r else base + [SLASH] + r);
    }
  }

  /** Below a base a file goes to the base, a slash and its own name; without one, to its own name. */
  lemma PlaceIs(base: Path, rel: bytes, r: Path)
    requires NormalizeAndValidate(rel) == Some(r)
    ensures Place([], rel) == Some(r)
    ensures NormalizeAndValidate(base) == Some(base) ==> Place(base, rel) == Some(base + [47] + r)
  {
    hide NormalizeAndValidate;
    NormalizeAndValidateIdempotent(rel);
    if NormalizeAndValidate(base) == Some(base) {
      NormalizeAndValidateIdempotent(base);
      JoinedIsValid(base, r);
      ValidIsNormal(base + [47] + r);
      ValidIsAccepted(base + [47] + r);
      AcceptedIsSafe(base, base);
    }
  }

  lemma JoinedIsValid(a: Path, b: Path)
    requires ValidPath(a) && ValidPath(b)
    ensures ValidPath(a + [47] + b)
  {
    SplitJoin(a, b);
    var p := a + [47] + b;
    assert p[0] == a[0] && p[1] == (if |a| > 1 then a[1] else 47);
    forall i | 0 <= i < |Split(p)| ensures GoodSegment(Split(p)[i]) {
      if i < |Split(a)| { assert Split(p)[i] == Split(a)[i]; } else { assert Split(p)[i] == Split(b)[i - |Split(a)|]; }
    }
  }

  lemma ValidIsAccepted(p: Path)
    requires ValidPath(p)
    ensures NormalizeAndValidate(p) == Some(p)
  {
    ValidIsNormal(p);
  }

  lemma SlashIsUtf8()
    ensures ValidUtf8([SLASH]) && ValidUtf8([])
  {
    AsciiIsUtf8([SLASH]);
  }

  lemma BaseIsWirePath(base: bytes)
    requires ValidUtf8(base)
    ensures Base(base).Some? ==> ValidUtf8(Base(base).value) && (Base(base).value != [] ==> WirePath(Base(base).value))
  {
    hide ValidPath, NormalizeAndValidate;
    NormalizedIsWirePath(base);
  }

  // ---------------------------------------------------------------------------------------------
  // Stored files
  // ---------------------------------------------------------------------------------------------

  ghost predicate Grows(m: Objects, m': Objects) {
    forall h :: h in m ==> h in m' && m'[h] == m[h]
  }

  /** The entry a file's bytes get: it depends on nothing else, so equal files share their chunks. */
  function FileEntry(env: Env, data: bytes): Entry
    requires Fits(|data|)
  {
    File(|data|, Ids(env, Chunks(data, env.cut(data))))
  }

  /** The entries for a list of files. */
  function Entries(env: Env, fs: seq<(Path, bytes)>): (es: seq<(Path, Entry)>)
    requires FilesFit(fs)
    ensures |es| == |fs|
  {
    seq(|fs|, i requires 0 <= i < |fs| => (fs[i].0, FileEntry(env, fs[i].1)))
  }

  /** What is stored for a file: its chunks, sealed. */
  function Blobs(env: Env, data: bytes): set<bytes> {
    var parts := Chunks(data, env.cut(data));
    set i | 0 <= i < |parts| :: Seal(env.cipher, parts[i])
  }

  function SourceBlobs(env: Env, src: Source): set<bytes> {
    match src
    case OneFile(data) => Blobs(env, data)
    case Folder(files) => set i, s | 0 <= i < |files| && s in Blobs(env, files[i].1) :: s
    case Neither => {}
  }

  /** No two of these blobs, nor one of them and a stored one, share a hash. */
  ghost predicate NoClashIn(H: bytes -> Cid, m: Objects, blobs: set<bytes>) {
    && (forall s :: s in blobs && H(s) in m ==> m[H(s)] == s)
    && (forall s, t :: s in blobs && t in blobs && H(s) == H(t) ==> s == t)
  }

  ghost predicate AllHeld(H: bytes -> Cid, m: Objects, blobs: set<bytes>) {
    forall s :: s in blobs ==> H(s) in m && m[H(s)] == s
  }

  /** What has been added is among these blobs. */
  ghost predicate OnlyAdded(m: Objects, m': Objects, blobs: set<bytes>) {
    forall h :: h in m' ==> h in m || m'[h] in blobs
  }

  /** One of these blobs cannot be stored: another is there under its hash. */
  ghost predicate Refused(H: bytes -> Cid, m: Objects, blobs: set<bytes>) {
    exists s :: s in blobs && H(s) in m && m[H(s)] != s
  }

  lemma HeldHaveNoClash(H: bytes -> Cid, m: Objects, m': Objects, blobs: set<bytes>)
    requires Grows(m, m') && AllHeld(H, m', blobs)
    ensures NoClashIn(H, m, blobs)
  {
  }

  lemma RefusedIsClash(H: bytes -> Cid, m: Objects, m': Objects, blobs: set<bytes>)
    requires Grows(m, m') && OnlyAdded(m, m', blobs) && Refused(H, m', blobs) && forall h :: h in m' ==> H(m'[h]) == h
    ensures !NoClashIn(H, m, blobs)
  {
  }

  // ---------------------------------------------------------------------------------------------
  // What an add does to a disk
  // ---------------------------------------------------------------------------------------------

  /** The chunk store after some chunks were put into it one by one, and whether none was refused. */
  datatype Put = Put(chunks: Objects, ok: bool)

  /** The sealed chunks of one file, until one of them meets another under its name. */
  function PutParts(env: Env, m: Objects, parts: seq<bytes>): Put {
    if parts == [] then Put(m, true)
    else
      var p, s := PutParts(env, m, parts[..|parts| - 1]), Seal(env.cipher, parts[|parts| - 1]);
      if !p.ok || Clobbers(env.H, p.chunks, s) then Put(p.chunks, false) else Put(p.chunks[env.H(s) := s], true)
  }

  function PutFile(env: Env, m: Objects, data: bytes): Put {
    PutParts(env, m, Chunks(data, env.cut(data)))
  }

  /** A folder's files in order, until a name or a chunk is refused; a file whose place is refused is stored first. */
  function PutFolder(env: Env, m: Objects, base: Path, files: seq<(bytes, bytes)>): Put {
    if files == [] then Put(m, true)
    else
      var p, (rel, data) := PutFolder(env, m, base, files[..|files| - 1]), files[|files| - 1];
      if !p.ok || NormalizeAndValidate(rel).None? then Put(p.chunks, false)
      else
        var q := PutFile(env, p.chunks, data);
        Put(q.chunks, q.ok && Place(base, rel).Some?)
  }

  function PutSource(env: Env, m: Objects, base: bytes, src: Source): Put {
    match Base(base)
    case None => Put(m, false)
    case Some(b) =>
      match src
      case OneFile(data) => if b == [] then Put(m, false) else PutFile(env, m, data)
      case Folder(files) => PutFolder(env, m, b, files)
      case Neither => Put(m, false)
  }

  /** The next part, and the end if it is refused. */
  lemma PartStep(env: Env, m: Objects, parts: seq<bytes>, n: nat)
    requires n < |parts| && PutParts(env, m, parts[..n]).ok
    ensures var p, s, q := PutParts(env, m, parts[..n]).chunks, Seal(env.cipher, parts[n]),
              PutParts(env, m, parts[..n + 1]);
            && q == (if Clobbers(env.H, p, s) then Put(p, false) else Put(p[env.H(s) := s], true))
            && (!q.ok ==> PutParts(env, m, parts) == q)
  {
    hide Clobbers;
    assert parts[..n + 1][..n] == parts[..n] && parts[..n + 1][n] == parts[n];
    if !PutParts(env, m, parts[..n + 1]).ok { PutStops(env, m, parts, n + 1); }
  }

  lemma NoPartsPut(env: Env, m: Objects, parts: seq<bytes>)
    ensures PutParts(env, m, parts[..0]) == Put(m, true)
  {
  }

  /** After a refusal nothing more is stored. */
  lemma {:induction false} PutStops(env: Env, m: Objects, parts: seq<bytes>, n: nat)
    requires n <= |parts| && !PutParts(env, m, parts[..n]).ok
    ensures PutParts(env, m, parts) == PutParts(env, m, parts[..n])
    decreases |parts|
  {
    if n < |parts| {
      var front := parts[..|parts| - 1];
      assert front[..n] == parts[..n];
      PutStops(env, m, front, n);
    } else {
      assert parts[..n] == parts;
    }
  }

  lemma {:induction false} FolderStops(env: Env, m: Objects, base: Path, files: seq<(bytes, bytes)>, n: nat)
    requires n <= |files| && !PutFolder(env, m, base, files[..n]).ok
    ensures PutFolder(env, m, base, files) == PutFolder(env, m, base, files[..n])
    decreases |files|
  {
    hide NormalizeAndValidate, Place, PutFile;
    if n < |files| {
      var front := files[..|files| - 1];
      assert front[..n] == files[..n];
      FolderStops(env, m, base, front, n);
    } else {
      assert files[..n] == files;
    }
  }

  lemma NothingPut(env: Env, m: Objects, base: Path, files: seq<(bytes, bytes)>)
    ensures PutFolder(env, m, base, files[..0]) == Put(m, true)
    ensures PlaceAll(base, files[..0]) == Some([])
  {
  }

  lemma {:induction false} PutPartsGrows(env: Env, m: Objects, parts: seq<bytes>)
    ensures Grows(m, PutParts(env, m, parts).chunks)
    decreases |parts|
  {
    if parts != [] { PutPartsGrows(env, m, parts[..|parts| - 1]); }
  }

  lemma {:induction false} PutFolderGrows(env: Env, m: Objects, base: Path, files: seq<(bytes, bytes)>)
    ensures Grows(m, PutFolder(env, m, base, files).chunks)
    decreases |files|
  {
    hide Place, PutParts, Chunks, NormalizeAndValidate;
    if files != [] {
      var p := PutFolder(env, m, base, files[..|files| - 1]).chunks;
      PutFolderGrows(env, m, base, files[..|files| - 1]);
      PutPartsGrows(env, p, Chunks(files[|files| - 1].1, env.cut(files[|files| - 1].1)));
    }
  }

  /** Chunks are only added. */
  lemma PutSourceGrows(env: Env, m: Objects, base: bytes, src: Source)
    ensures Grows(m, PutSource(env, m, base, src).chunks)
  {
    hide PutParts, PutFolder, Chunks, NormalizeAndValidate;
    if src.OneFile? { PutPartsGrows(env, m, Chunks(src.data, env.cut(src.data))); }
    if Base(base).Some? && src.Folder? { PutFolderGrows(env, m, Base(base).value, src.files); }
  }

  /** The next file of a folder, and the end if it is refused. */
  lemma FolderStep(env: Env, m: Objects, base: Path, files: seq<(bytes, bytes)>, n: nat)
    requires n < |files| && PutFolder(env, m, base, files[..n]).ok
    ensures var p, q := PutFolder(env, m, base, files[..n]).chunks, PutFolder(env, m, base, files[..n + 1]);
            && (if NormalizeAndValidate(files[n].0).None? then q == Put(p, false)
                else q == Put(PutFile(env, p, files[n].1).chunks, PutFile(env, p, files[n].1).ok
                    && Place(base, files[n].0).Some?))
            && (!q.ok ==> PutFolder(env, m, base, files) == q)
  {
    hide NormalizeAndValidate, Place, PutFile;
    assert files[..n + 1][..n] == files[..n] && files[..n + 1][n] == files[n];
    if !PutFolder(env, m, base, files[..n + 1]).ok { FolderStops(env, m, base, files, n + 1); }
  }

  function HeadList(d: Disk): seq<Cid> { if d.head.Some? then [d.head.value] else [] }

  /** The tree after an add. */
  function AddedTree(env: Env, d: Disk, base: bytes, src: Source): TreeMap
    requires SourceFits(src) && Added(base, src).Some? && HeadTree(env, d).Ok?
  {
    AddedFit(base, src);
    Overlay(HeadTree(env, d).value, Entries(env, Added(base, src).value))
  }

  /** When an add succeeds: its names are good, no hashes clash, HEAD loads, and the tree stays within its cap. */
  ghost predicate AddSucceeds(env: Env, d: Disk, base: bytes, src: Source)
    requires SourceFits(src)
  {
    && Added(base, src).Some? && NoClashIn(env.H, d.chunks, SourceBlobs(env, src))
    && HeadTree(env, d).Ok? && Encodable(AddedTree(env, d, base, src))
  }

  function AddCommit(env: Env, d: Disk, base: bytes, src: Source, message: bytes, now: u64): (c: Commit)
    requires SourceFits(src) && TextFits(message) && Added(base, src).Some? && HeadTree(env, d).Ok?
    requires Encodable(AddedTree(env, d, base, src))
    ensures CommitFits(c)
  {
    var tree := env.H(TreeWire(AddedTree(env, d, base, src)));
    MadeCommitFits(env, tree, HeadList(d), message, now);
    MakeCommit(env, tree, HeadList(d), message, now)
  }

  // ---------------------------------------------------------------------------------------------
  // Where added files land
  // ---------------------------------------------------------------------------------------------

  /** The files an add puts into the vault: a file at the base; a folder's files, in order, each at the base, a slash
      and its own name, or at its own name if there is no base. Names are taken as the entry points make them. */
  lemma AddedIs(base: bytes, src: Source, l: seq<(Path, bytes)>)
    ensures Added(base, src) == Some(l) <==>
              match src
              case OneFile(data) =>
                base != [] && NormalizeAndValidate(base).Some? && l == [(NormalizeAndValidate(base).value, data)]
              case Folder(files) =>
                && files != [] && |l| == |files| && (base != [] ==> NormalizeAndValidate(base).Some?)
                && forall i :: 0 <= i < |files| ==>
                     && NormalizeAndValidate(files[i].0).Some? && l[i].1 == files[i].1
                     && l[i].0 == (if base == [] then NormalizeAndValidate(files[i].0).value
                                   else
                                     NormalizeAndValidate(base).value + [47] + NormalizeAndValidate(files[i].0).value)
              case Neither => false
  {
    hide NormalizeAndValidate, Place;
    if base != [] && NormalizeAndValidate(base).Some? {
      NormalizeAndValidateIdempotent(base);
      NotEmpty(base);
    }
    if src.Folder? && (base != [] ==> NormalizeAndValidate(base).Some?) {
      PlacedAre(Base(base).value, src.files, l);
    }
  }

  lemma NotEmpty(base: bytes)
    requires NormalizeAndValidate(base).Some?
    ensures NormalizeAndValidate(base).value != []
  {
  }

  lemma {:induction false} PlacedAre(b: Path, files: seq<(bytes, bytes)>, l: seq<(Path, bytes)>)
    requires b != [] ==> NormalizeAndValidate(b) == Some(b)
    ensures PlaceAll(b, files) == Some(l) <==>
              && |l| == |files|
              && forall i :: 0 <= i < |files| ==>
                   && NormalizeAndValidate(files[i].0).Some? && l[i].1 == files[i].1
                   && l[i].0 == (if b == [] then NormalizeAndValidate(files[i].0).value
                                 else b + [47] + NormalizeAndValidate(files[i].0).value)
    decreases |files|
  {
    hide NormalizeAndValidate, Place;
    if files != [] {
      var n := |files| - 1;
      PlaceNeedsName(b, files[n].0);
      if NormalizeAndValidate(files[n].0).Some? { PlaceIs(b, files[n].0, NormalizeAndValidate(files[n].0).value); }
      if |l| > 0 {
        PlacedAre(b, files[..n], l[..|l| - 1]);
        assert l == l[..|l| - 1] + [l[|l| - 1]];
      }
      if PlaceAll(b, files) == Some(l) { assert l[..n] == PlaceAll(b, files[..n]).value; }
    }
  }

  lemma PlaceNeedsName(b: Path, rel: bytes)
    ensures Place(b, rel).Some? ==> NormalizeAndValidate(rel).Some?
  {
    hide NormalizeAndValidate;
  }

  /** The `i`th file of a folder, or the one file, lands at `k`. */
  predicate LandsAt(base: bytes, src: Source, i: nat, k: Path) {
    match src
    case OneFile(_) => i == 0 && base != [] && NormalizeAndValidate(base) == Some(k)
    case Folder(files) =>
      && i < |files| && NormalizeAndValidate(files[i].0).Some?
      && (if base == [] then NormalizeAndValidate(files[i].0) == Some(k)
          else NormalizeAndValidate(base).Some?
               && k == NormalizeAndValidate(base).value + [47] + NormalizeAndValidate(files[i].0).value)
    case Neither => false
  }

  /** Its bytes. */
  function Content(src: Source, i: nat): bytes {
    match src
    case OneFile(data) => data
    case Folder(files) => if i < |files| then files[i].1 else []
    case Neither => []
  }

  lemma AddedLands(base: bytes, src: Source, i: nat, k: Path)
    requires Added(base, src).Some?
    ensures LandsAt(base, src, i, k) <==> i < |Added(base, src).value| && Added(base, src).value[i].0 == k
    ensures i < |Added(base, src).value| ==>
              Added(base, src).value[i].1 == Content(src, i)
  {
    hide NormalizeAndValidate, Added;
    AddedIs(base, src, Added(base, src).value);
  }

  /** The tree after an add: the old paths and those where files land; an entry changes only where one lands. */
  lemma AddedTreeIs(env: Env, d: Disk, base: bytes, src: Source, k: Path)
    requires SourceFits(src) && Added(base, src).Some? && HeadTree(env, d).Ok?
    ensures k in AddedTree(env, d, base, src) <==>
              k in HeadTree(env, d).value || exists i: nat :: LandsAt(base, src, i, k)
    ensures k in HeadTree(env, d).value && (forall i: nat :: !LandsAt(base, src, i, k)) ==>
              AddedTree(env, d, base, src)[k] == HeadTree(env, d).value[k]
  {
    hide LandsAt, Added, FileEntry, LoadCommit, LoadTree, Overlay;
    AddedFit(base, src);
    var es, l := Entries(env, Added(base, src).value), Added(base, src).value;
    OverlayExact(HeadTree(env, d).value, es, k);
    forall i: nat ensures LandsAt(base, src, i, k) <==> i < |es| && es[i].0 == k { AddedLands(base, src, i, k); }
  }

  /** A path that an add brings is the base, or the base, a slash and the name of a file of the folder. */
  lemma NewPathsLand(env: Env, d: Disk, base: bytes, src: Source)
    requires SourceFits(src) && Added(base, src).Some? && HeadTree(env, d).Ok?
    ensures forall k :: k in AddedTree(env, d, base, src) && k !in HeadTree(env, d).value ==>
              || (src.OneFile? && NormalizeAndValidate(base) == Some(k))
              || (src.Folder? && exists i ::
                    0 <= i < |src.files| && NormalizeAndValidate(src.files[i].0).Some?
                    && if base == [] then k == NormalizeAndValidate(src.files[i].0).value
                       else NormalizeAndValidate(base).Some?
                            && k == NormalizeAndValidate(base).value + [47]
                                 + NormalizeAndValidate(src.files[i].0).value)
  {
    hide NormalizeAndValidate, Added, AddedTree, HeadTree, SourceFits;
    forall k | k in AddedTree(env, d, base, src) && k !in HeadTree(env, d).value
      ensures exists i: nat :: LandsAt(base, src, i, k)
    {
      AddedTreeIs(env, d, base, src, k);
    }
  }

  /** The files after an add: where files land the last one to land there, and elsewhere what was there. */
  lemma AddedFilesAre(base: bytes, src: Source, last: Files, k: Path)
    requires Added(base, src).Some?
    ensures var files := Overlay(last, Added(base, src).value);
            && (k in files <==> k in last || exists i: nat :: LandsAt(base, src, i, k))
            && (k in last && (forall i: nat :: !LandsAt(base, src, i, k)) ==> files[k] == last[k])
            && forall i: nat :: LandsAt(base, src, i, k) && (forall j: nat :: j > i ==> !LandsAt(base, src, j, k)) ==>
                 k in files && files[k] == Content(src, i)
  {
    hide LandsAt, Added, Overlay;
    var l := Added(base, src).value;
    OverlayExact(last, l, k);
    forall i: nat ensures LandsAt(base, src, i, k) <==> i < |l| && l[i].0 == k { AddedLands(base, src, i, k); }
    forall i: nat | LandsAt(base, src, i, k) && (forall j: nat :: j > i ==> !LandsAt(base, src, j, k))
      ensures k in Overlay(last, l)
      ensures Overlay(last, l)[k] == Content(src, i)
    {
      AddedLands(base, src, i, k);
      forall j | i < j < |l| ensures l[j].0 != k { assert !LandsAt(base, src, j, k); }
    }
  }

  /** The disk after an add, successful or not. */
  ghost function AddedDisk(env: Env, d: Disk, base: bytes, src: Source, message: bytes, now: u64): Disk
    requires SourceFits(src) && TextFits(message)
  {
    var d' := d.(chunks := PutSource(env, d.chunks, base, src).chunks);
    if AddSucceeds(env, d, base, src)
    then CommitSaved(env, TreeSaved(env, d', AddedTree(env, d, base, src)), AddCommit(env, d, base, src, message, now))
    else d'
  }

  /** The add writes no object in place of a different one. */
  ghost predicate AddsCleanly(env: Env, d: Disk, base: bytes, src: Source, message: bytes, now: u64)
    requires SourceFits(src) && TextFits(message)
  {
    AddSucceeds(env, d, base, src) ==>
      && !Clobbers(env.H, d.trees, TreeWire(AddedTree(env, d, base, src)))
      && !Clobbers(env.H, d.commits, CommitWire(env.H, AddCommit(env, d, base, src, message, now)))
  }

  /** An add that writes cleanly adds objects and takes none away. */
  lemma AddsOnly(env: Env, d: Disk, base: bytes, src: Source, message: bytes, now: u64)
    requires SourceFits(src) && TextFits(message) && AddsCleanly(env, d, base, src, message, now)
    ensures Extends(d, AddedDisk(env, d, base, src, message, now))
  {
    hide PutSource, AddSucceeds, AddedTree, AddCommit, TreeWire, CommitWire, CommitFits, Encodable, SourceFits,
      TextFits;
    PutSourceGrows(env, d.chunks, base, src);
  }

  /** An entry whose file is stored. */
  ghost predicate Stored(env: Env, m: Objects, e: Entry, data: bytes) {
    e.File? && FileBytes(env, m, e) == Some(data) && forall h :: h in e.chunks ==> h in m
  }

  lemma StoredEntry(env: Env, m: Objects, data: bytes)
    requires Trusted(env) && Fits(|data|) && Holds(env, m, Chunks(data, env.cut(data)))
    ensures Stored(env, m, FileEntry(env, data), data)
  {
    hide ReadChunks, Contiguous;
    var parts := Chunks(data, env.cut(data));
    StoredFileReads(env, m, parts);
    ChunksCover(data, env.cut(data));
  }

  /** What is stored for a file under a key is each of its parts sealed, in order, and without a key the parts. */
  lemma StoredSealed(env: Env, m: Objects, data: bytes)
    requires Trusted(env) && Fits(|data|) && Holds(env, m, Chunks(data, env.cut(data)))
    ensures exists parts: seq<bytes> ::
              && Concat(parts) == data && |parts| == |FileEntry(env, data).chunks|
              && forall i :: 0 <= i < |parts| ==>
                   && FileEntry(env, data).chunks[i] in m
                   && (env.cipher.Plain? ==> m[FileEntry(env, data).chunks[i]] == parts[i])
                   && (env.cipher.Keyed? ==> m[FileEntry(env, data).chunks[i]] == env.cipher.seal(parts[i]))
  {
    hide Concat, Chunks;
    var parts := Chunks(data, env.cut(data));
    ChunksCover(data, env.cut(data));
    assert forall i :: 0 <= i < |parts| ==>
        Ids(env, parts)[i] in m && m[Ids(env, parts)[i]] == Seal(env.cipher, parts[i]);
  }

  lemma StaysStored(env: Env, m: Objects, m': Objects, e: Entry, data: bytes)
    requires Stored(env, m, e, data) && Grows(m, m')
    ensures Stored(env, m', e, data)
  {
    hide ReadChunks;
    assert forall i :: 0 <= i < |e.chunks| ==> e.chunks[i] in e.chunks;
    SameReadChunks(env, m, m', e.chunks);
  }

  lemma EntriesStay(env: Env, m: Objects, m': Objects, es: seq<(Path, Entry)>, fs: seq<(Path, bytes)>)
    requires EntriesRestore(env, m, es, fs) && Grows(m, m')
    ensures EntriesRestore(env, m', es, fs)
  {
    hide FileBytes, WirePath;
    forall i | 0 <= i < |es| ensures Stored(env, m', es[i].1, fs[i].1) {
      StaysStored(env, m, m', es[i].1, fs[i].1);
    }
  }

  /** One more entry, after which the store may have grown. */
  lemma OneMoreEntry(env: Env, m: Objects, m': Objects, es: seq<(Path, Entry)>, fs: seq<(Path, bytes)>, p: Path,
                     e: Entry, data: bytes)
    requires EntriesRestore(env, m, es, fs) && Grows(m, m') && Stored(env, m', e, data) && WirePath(p)
    ensures EntriesRestore(env, m', es + [(p, e)], fs + [(p, data)])
  {
    hide FileBytes, WirePath, Grows;
    EntriesStay(env, m, m', es, fs);
    var all, files := es + [(p, e)], fs + [(p, data)];
    forall i | 0 <= i < |all|
      ensures all[i].0 == files[i].0 && WirePath(all[i].0) && Stored(env, m', all[i].1, files[i].1)
    {
      if i < |es| { assert all[i] == es[i] && files[i] == fs[i]; }
    }
  }

  // ---------------------------------------------------------------------------------------------
  // The tree at HEAD
  // ---------------------------------------------------------------------------------------------

  /** `head_tree` */
  function HeadTree(env: Env, d: Disk): Result<TreeMap, Error> {
    match d.head
    case None => Ok(map[])
    case Some(h) =>
      match LoadCommit(env, d, h)
      case Err(e) => Err(e)
      case Ok(c) => LoadTree(env, d, c.tree)
  }

  lemma HeadTreeIsWire(env: Env, d: Disk)
    ensures HeadTree(env, d).Ok? ==> WireTree(HeadTree(env, d).value)
  {
    hide TreeOf, CommitOf, WirePath, Encodable;
    if HeadTree(env, d).Ok? && d.head.Some? {
      var h := LoadCommit(env, d, d.head.value).value.tree;
      LoadedTree(env.H, h, d.trees[h]);
    }
  }

  /** The files of the newest version, if it was whole and could be restored; none before the first. */
  function LastFiles(vs: seq<Version>): Option<Files> {
    if vs == [] then Some(map[])
    else if vs[|vs| - 1].whole then vs[|vs| - 1].files else None
  }

  /** The tree at HEAD restores to the files of the newest version. */
  lemma HeadFiles(env: Env, d: Disk, vs: seq<Version>)
    requires Represents(env, d, vs) && LastFiles(vs).Some?
    ensures HeadTree(env, d).Ok?
    ensures HasChunks(d.chunks, HeadTree(env, d).value)
              && RestoreTree(env, d.chunks, HeadTree(env, d).value) == LastFiles(vs)
  {
    hide TreeOf, CommitOf, RestoreTree, Chained;
    if vs == [] {
      EmptyRestores(env, d.chunks);
    } else {
      assert Kept(env, d, vs[|vs| - 1]);
    }
  }

  lemma EmptyRestores(env: Env, m: Objects)
    ensures RestoreTree(env, m, map[]) == Some(map[])
  {
  }

  /** A commit whose tree and chunks are here is a whole version. */
  lemma WholeVersion(env: Env, d: Disk, c: Cid, t: TreeMap)
    requires LoadCommit(env, d, c).Ok? && LoadTree(env, d, LoadCommit(env, d, c).value.tree) == Ok(t)
              && HasChunks(d.chunks, t)
    ensures NewVersion(env, d, c) == Version(c, true, RestoreTree(env, d.chunks, t))
  {
  }
}
