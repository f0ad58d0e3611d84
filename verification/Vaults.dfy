/** The vault object of src/vault.rs: every step keeps the store sound and, as long as the vault has met no
    hash collision, keeps it behaving like the list of its versions. */
module Vaults {
  import opened Bytes
  import opened Paths
  import opened Trees
  import opened Cbor
  import opened TreeCodec
  import opened Frames
  import opened Commits
  import opened Disks
  import opened Versions
  import opened Adding
  import opened Merging
  import opened Snapshots
  import opened Reach
  import opened Gc
  import opened Registry
  import opened Chunking

  /** Two byte strings under one hash. */
  datatype Clash = Clash(a: bytes, b: bytes)

  ghost predicate IsClash(H: bytes -> Cid, x: Clash) {
    x.a != x.b && H(x.a) == H(x.b)
  }

  /** The commit loads, as the one the vault makes of its tree with these parents, message and time. */
  ghost predicate CommittedAs(env: Env, d: Disk, h: Cid, parents: seq<Cid>, message: bytes, now: u64) {
    && LoadCommit(env, d, h).Ok? && |parents| <= MAX_COMMIT_PARENTS && TextFits(message)
    && var c := MakeCommit(env, LoadCommit(env, d, h).value.tree, parents, message, now);
       LoadCommit(env, d, h).value == Normal(env.H, c) && LoadCommit(env, d, h).value.parents == parents
  }

  /** Such a commit has these parents, message and time. Made with a key, it has the key for its author, and for its
      signature that of its preimage; made without one it is nobody's and bears 64 zeros. */
  lemma CommittedFields(env: Env, d: Disk, h: Cid, parents: seq<Cid>, message: bytes, now: u64)
    requires Trusted(env) && CommittedAs(env, d, h, parents, message, now)
    ensures var c := LoadCommit(env, d, h).value;
            && c.parents == parents && c.message == message && c.timestamp == now && c.version == 1 && CommitFits(c)
            && match env.who
               case Node(pk, sign) =>
                 c.author == HexEncode(pk.raw) && c.signature == Some(HexEncode(sign(SignMessage(env.H, c))))
               case Anonymous => c.signature == Some(HexEncode(seq(64, i => 0)))
  {
    hide SignMessage, HexEncode, HexDecode, FromHex, Trim, LoadCommit, ValidUtf8, MakeCommit;
    var tree := LoadCommit(env, d, h).value.tree;
    var made := MakeCommit(env, tree, parents, message, now);
    MadeCommitIs(env, tree, parents, message, now);
    NormalKeepsWire(env.H, made);
    AllZeros(64);
    match env.who {
      case Node(pk, sign) =>
        FromHexRoundTrip(pk);
        var sig := sign(SignMessage(env.H, made));
        HexRoundTrip(sig);
        TrimHex(HexEncode(sig));
      case Anonymous =>
    }
  }

  /** Every name is still taken. */
  ghost predicate Keeps(d: Disk, d': Disk) {
    d.chunks.Keys <= d'.chunks.Keys && d.trees.Keys <= d'.trees.Keys && d.commits.Keys <= d'.commits.Keys
  }

  /** Objects may have been added; HEAD, HEADS and the registry are the same. */
  ghost predicate OnlyGrew(d: Disk, d': Disk) {
    Extends(d, d') && d'.head == d.head && d'.heads == d.heads && d'.registry == d.registry
  }

  lemma GrownRepresents(env: Env, d: Disk, d': Disk, vs: seq<Version>)
    requires Represents(env, d, vs) && Extends(d, d') && d'.head == d.head
    ensures Represents(env, d', vs)
  {
    hide AllKept, Chained, Extends;
    ExtendingKeeps(env, d, d', vs);
  }

  lemma ObjectName(env: Env, d: Disk, h: Cid)
    requires StoreOk(env, d)
    ensures h in d.trees ==> env.H(d.trees[h]) == h
    ensures h in d.commits ==> env.H(d.commits[h]) == h
  {
    hide DecodeTreeWire, DecodeCommitWire, TreeWire, CommitWire;
  }

  class Vault {
    const env: Env
    var disk: Disk
    var retain: nat
    /** The versions so far. */
    ghost var versions: seq<Version>
    /** The first hash collision that made a write replace another object, if ever. */
    ghost var clash: Option<Clash>

    ghost predicate Valid()
      reads this
    {
      && Trusted(env)
      && StoreOk(env, disk)
      && (clash.None? ==> Represents(env, disk, versions))
      && (clash.Some? ==> IsClash(env.H, clash.value))
    }

    /** An empty vault. */
    constructor (env: Env, retain: nat)
      requires Trusted(env)
      ensures Valid() && this.env == env && disk == EMPTY && versions == [] && clash == None && this.retain == retain
    {
      hide StoreOk, Represents, Trusted;
      this.env, this.disk, this.retain := env, EMPTY, retain;
      versions, clash := [], None;
      new;
      EmptyIsSound(env);
    }

    /** A write of `w` in place of `m[h]`. */
    ghost method NoteClash(m: Objects, w: bytes)
      requires Trusted(env) && Clobbers(env.H, m, w) && env.H(m[env.H(w)]) == env.H(w)
      modifies this`clash
      ensures clash.Some? && (old(clash).Some? ==> clash == old(clash))
      ensures (old(clash).Some? ==> IsClash(env.H, old(clash).value)) ==> IsClash(env.H, clash.value)
    {
      if clash.None? {
        clash := Some(Clash(m[env.H(w)], w));
      }
    }

    // -------------------------------------------------------------------------------------------
    // Chunks
    // -------------------------------------------------------------------------------------------

    /** `put_verified` on the chunk store, by which chunks are stored and imported. */
    method PutChunk(h: Cid, data: bytes) returns (r: Result<bool, Error>)
      requires Valid()
      modifies this`disk
      ensures Valid()
      ensures r.Ok? <==> env.H(data) == h && (h in old(disk).chunks ==> old(disk).chunks[h] == data)
      ensures r == Err(Collision) <==> env.H(data) == h && h in old(disk).chunks && old(disk).chunks[h] != data
      ensures r.Ok? ==>
                disk == old(disk).(chunks := old(disk).chunks[h := data])
                && (r.value <==> h !in old(disk).chunks)
      ensures r.Err? ==> disk == old(disk)
      ensures OnlyGrew(old(disk), disk)
    {
      hide TreeOf, GoodObject, Trusted, Represents;
      if env.H(data) != h { return Err(HashMismatch); }
      if h in disk.chunks {
        if disk.chunks[h] != data { return Err(Collision); }
        assert disk.chunks[h := data] == disk.chunks;
        return Ok(false);
      }
      ghost var before := disk;
      disk := disk.(chunks := disk.chunks[h := data]);
      if clash.None? { GrownRepresents(env, before, disk, versions); }
      r := Ok(true);
    }

    /** `chunk_bytes` and `store_chunks` on one file. */
    method StoreFile(data: bytes) returns (r: Result<Entry, Error>)
      requires Valid() && Fits(|data|)
      modifies this`disk
      ensures Valid()
      ensures disk == old(disk).(chunks := disk.chunks) && OnlyGrew(old(disk), disk)
      ensures r.Ok? ==> r.value == FileEntry(env, data) && Stored(env, disk.chunks, r.value, data)
      ensures OnlyAdded(old(disk).chunks, disk.chunks, Blobs(env, data))
      ensures r.Ok? ==> AllHeld(env.H, disk.chunks, Blobs(env, data))
      ensures r.Err? ==> r.error == Collision && Refused(env.H, disk.chunks, Blobs(env, data))
      ensures PutFile(env, old(disk).chunks, data) == Put(disk.chunks, r.Ok?)
      ensures r.Ok? ==> exists parts: seq<bytes> ::
                && Concat(parts) == data && |parts| == |r.value.chunks|
                && forall i :: 0 <= i < |parts| ==>
                     && r.value.chunks[i] in disk.chunks
                     && (env.cipher.Plain? ==> disk.chunks[r.value.chunks[i]] == parts[i])
                     && (env.cipher.Keyed? ==> disk.chunks[r.value.chunks[i]] == env.cipher.seal(parts[i]))
    {
      hide StoreOk, Trusted, Represents, FileBytes, Chunks, PutParts, Stored, Concat, GoodObject, TreeOf;
      var parts := ChunkBytes(data, env.cut(data));
      var ids: seq<Cid> := [];
      NoPartsPut(env, disk.chunks, parts);
      for i := 0 to |parts|
        invariant Valid()
        invariant disk == old(disk).(chunks := disk.chunks) && OnlyGrew(old(disk), disk)
        invariant ids == Ids(env, parts[..i]) && Holds(env, disk.chunks, parts[..i])
        invariant OnlyAdded(old(disk).chunks, disk.chunks, Blobs(env, data))
        invariant PutParts(env, old(disk).chunks, parts[..i]) == Put(disk.chunks, true)
      {
        assert Seal(env.cipher, parts[i]) in Blobs(env, data);
        var s := Seal(env.cipher, parts[i]);
        PartStep(env, old(disk).chunks, parts, i);
        var put := PutChunk(env.H(s), s);
        if put.Err? { return Err(Collision); }
        assert parts[..i + 1] == parts[..i] + [parts[i]];
        ids := ids + [env.H(s)];
      }
      assert parts[..|parts|] == parts;
      StoredEntry(env, disk.chunks, data);
      StoredSealed(env, disk.chunks, data);
      HeldBlobs(env, disk.chunks, data);
      r := Ok(File(|data|, ids));
    }

    // -------------------------------------------------------------------------------------------
    // Trees and commits
    // -------------------------------------------------------------------------------------------

    /** `save_tree` */
    method SaveTree(t: TreeMap) returns (r: Result<Cid, Error>)
      requires Valid() && WireTree(t)
      modifies this`disk, this`clash
      ensures Valid()
      ensures r.Ok? <==> Encodable(t)
      ensures r.Ok? ==>
                disk == TreeSaved(env, old(disk), t) && r.value == env.H(TreeWire(t))
                && LoadTree(env, disk, r.value) == Ok(t)
      ensures r.Ok? ==> (clash.None? <==> old(clash).None? && !Clobbers(env.H, old(disk).trees, TreeWire(t)))
      ensures (clash.None? ==> Extends(old(disk), disk)) && Keeps(old(disk), disk)
      ensures r.Err? ==> r.error.Codec? && disk == old(disk) && clash == old(clash)
    {
      hide StoreOk, Trusted, Represents, TreeOf, Encodable, WireTree, TreeBody;
      var body := EncodeTreeBody(t);
      if body.Err? { return Err(Codec(body.error)); }
      var wire := Frame(DOMAIN_TREE, body.value);
      var hash := env.H(wire);
      ghost var before := disk;
      TreeSavedOk(env, before, t);
      if Clobbers(env.H, disk.trees, wire) {
        ObjectName(env, disk, hash);
        NoteClash(disk.trees, wire);
      }
      disk := disk.(trees := disk.trees[hash := wire]);
      if clash.None? { GrownRepresents(env, before, disk, versions); }
      r := Ok(hash);
    }

    /** `make_commit`, `save_commit` and `set_head`: the tail of every operation that commits on top of HEAD. */
    method CommitHead(tree: Cid, parents: seq<Cid>, message: bytes, now: u64) returns (h: Cid)
      requires Valid() && |parents| <= MAX_COMMIT_PARENTS && TextFits(message)
      requires disk.head.Some? ==> disk.head.value in parents
      modifies this`disk, this`clash, this`versions
      ensures Valid()
      ensures CommitFits(MakeCommit(env, tree, parents, message, now))
      ensures disk == CommitSaved(env, old(disk), MakeCommit(env, tree, parents, message, now)) && disk.head == Some(h)
      ensures CommittedAs(env, disk, h, parents, message, now) && LoadCommit(env, disk, h).value.tree == tree
      ensures var c := LoadCommit(env, disk, h).value;
              && c.parents == parents && c.message == message && c.timestamp == now && CommitFits(c)
              && match env.who
                 case Node(pk, sign) =>
                   c.author == HexEncode(pk.raw) && c.signature == Some(HexEncode(sign(SignMessage(env.H, c))))
                 case Anonymous => c.signature == Some(HexEncode(seq(64, i => 0)))
      ensures versions == old(versions) + [NewVersion(env, disk, h)]
      ensures clash.None? <==>
                old(clash).None? && !Clobbers(env.H, old(disk).commits,
                    CommitWire(env.H, MakeCommit(env, tree, parents, message, now)))
      ensures (clash.None? ==> Extends(old(disk), disk)) && Keeps(old(disk), disk)
    {
      hide StoreOk, Trusted, Represents, CommitOf, CommitWire, MakeCommit, NewVersion, CommitFits, GoodCommit, Normal,
        HexEncode, SignMessage;
      ghost var before := disk;
      CommitSavedOk(env, before, tree, parents, message, now);
      var c := MakeCommit(env, tree, parents, message, now);
      var wire := CommitWire(env.H, c);
      h := env.H(wire);
      if Clobbers(env.H, disk.commits, wire) {
        ObjectName(env, disk, h);
        NoteClash(disk.commits, wire);
      }
      disk := disk.(commits := disk.commits[h := wire], head := Some(h));
      if clash.None? { NewHead(env, before, disk, versions, h); }
      versions := versions + [NewVersion(env, disk, h)];
      CommittedFields(env, disk, h, parents, message, now);
    }

    // -------------------------------------------------------------------------------------------
    // Adding
    // -------------------------------------------------------------------------------------------

    /** The file part of `add_path`: validate the names, chunk and store the contents. */
    method Gather(base: bytes, src: Source) returns (r: Result<seq<(Path, Entry)>, Error>)
      requires Valid() && ValidUtf8(base) && SourceFits(src)
      modifies this`disk
      ensures Valid()
      ensures disk == old(disk).(chunks := disk.chunks) && OnlyGrew(old(disk), disk)
      ensures r.Ok? ==> Added(base, src).Some? && EntriesRestore(env, disk.chunks, r.value, Added(base, src).value)
      ensures r.Ok? ==> FilesFit(Added(base, src).value) && r.value == Entries(env, Added(base, src).value)
      ensures OnlyAdded(old(disk).chunks, disk.chunks, SourceBlobs(env, src))
      ensures r.Ok? ==> AllHeld(env.H, disk.chunks, SourceBlobs(env, src))
      ensures r.Err? ==>
                || (r.error == Collision && Refused(env.H, disk.chunks, SourceBlobs(env, src)))
                || (Added(base, src).None? && (r.error == InvalidPath || r.error == NothingToAdd))
      ensures disk.chunks == PutSource(env, old(disk).chunks, base, src).chunks
    {
      hide StoreOk, Trusted, Represents, FileBytes, NormalizeAndValidate, ValidUtf8, WirePath, FileEntry, Blobs,
        AllHeld, Refused, PlaceAll, PutFile, PutFolder;
      var b := Base(base);
      BaseIsWirePath(base);
      if b.None? { return Err(InvalidPath); }
      match src {
        case Neither => return Err(NothingToAdd);
        case OneFile(data) =>
          if b.value == [] { return Err(InvalidPath); }
          var e := StoreFile(data);
          if e.Err? { return Err(e.error); }
          assert EntriesRestore(env, disk.chunks, [], []);
          OneMoreEntry(env, disk.chunks, disk.chunks, [], [], b.value, e.value, data);
          assert [] + [(b.value, e.value)] == [(b.value, e.value)] && [] + [(b.value, data)] == [(b.value, data)];
          r := Ok([(b.value, e.value)]);
        case Folder(files) =>
          var es := GatherAll(b.value, files);
          if es.Err? { return Err(es.error); }
          if es.value == [] { return Err(NothingToAdd); }
          r := es;
      }
    }

    /** The loop over a folder's files. */
    method GatherAll(base: Path, files: seq<(bytes, bytes)>) returns (r: Result<seq<(Path, Entry)>, Error>)
      requires Valid() && ValidUtf8(base) && SourceFits(Folder(files))
      modifies this`disk
      ensures Valid()
      ensures disk == old(disk).(chunks := disk.chunks) && OnlyGrew(old(disk), disk)
      ensures r.Ok? ==>
                PlaceAll(base, files).Some?
                && EntriesRestore(env, disk.chunks, r.value, PlaceAll(base, files).value)
      ensures r.Ok? ==> FilesFit(PlaceAll(base, files).value) && r.value == Entries(env, PlaceAll(base, files).value)
      ensures OnlyAdded(old(disk).chunks, disk.chunks, SourceBlobs(env, Folder(files)))
      ensures r.Ok? ==> AllHeld(env.H, disk.chunks, SourceBlobs(env, Folder(files)))
      ensures r.Err? ==>
                || (r.error == Collision && Refused(env.H, disk.chunks, SourceBlobs(env, Folder(files))))
                || (PlaceAll(base, files).None? && r.error == InvalidPath)
      ensures PutFolder(env, old(disk).chunks, base, files) == Put(disk.chunks, r.Ok?)
    {
      hide Concat, StoreOk, Trusted, Represents, FileBytes, ValidUtf8, WirePath, FileEntry, NormalizeAndValidate, Blobs,
        SourceBlobs, OnlyAdded, AllHeld, Refused, EntriesRestore, Entries, FilesFit, Stored, PutFile, PutFolder,
            PlaceAll;
      NoBlobsYet(env, disk.chunks, files);
      NoEntriesYet(env, disk.chunks);
      NothingPut(env, disk.chunks, base, files);
      var es: seq<(Path, Entry)> := [];
      for i := 0 to |files|
        invariant Valid()
        invariant disk == old(disk).(chunks := disk.chunks) && OnlyGrew(old(disk), disk)
        invariant PlaceAll(base, files[..i]).Some?
                  && EntriesRestore(env, disk.chunks, es, PlaceAll(base, files[..i]).value)
        invariant FilesFit(PlaceAll(base, files[..i]).value) && es == Entries(env, PlaceAll(base, files[..i]).value)
        invariant OnlyAdded(old(disk).chunks, disk.chunks, SourceBlobs(env, Folder(files)))
        invariant AllHeld(env.H, disk.chunks, SourceBlobs(env, Folder(files[..i])))
        invariant PutFolder(env, old(disk).chunks, base, files[..i]) == Put(disk.chunks, true)
      {
        var (rel, data) := files[i];
        PlaceStep(base, files, i);
        PlaceIsWirePath(base, rel);
        FolderStep(env, old(disk).chunks, base, files, i);
        var r1 := NormalizeAndValidate(rel);
        if r1.None? { return Err(InvalidPath); }
        ghost var chunks := disk.chunks;
        var e := StoreFile(data);
        BlobsOfFolder(env, files, i);
        MoreBlobs(env.H, old(disk).chunks, chunks, disk.chunks, SourceBlobs(env, Folder(files)), Blobs(env, data));
        if e.Err? { return Err(e.error); }
        MoreHeld(env.H, chunks, disk.chunks, SourceBlobs(env, Folder(files[..i])), Blobs(env, data));
        var p := NormalizeAndValidate(if base == [] then r1.value else base + [SLASH] + r1.value);
        if p.None? { return Err(InvalidPath); }
        OneMoreEntry(env, chunks, disk.chunks, es, PlaceAll(base, files[..i]).value, p.value, e.value, data);
        OneMoreFile(env, PlaceAll(base, files[..i]).value, p.value, data);
        es := es + [(p.value, e.value)];
      }
      assert files[..|files|] == files;
      r := Ok(es);
    }

    /** `add_path`. It succeeds exactly when `AddSucceeds` says so; then HEAD is a commit on the old HEAD, and the
        new version is the last one with the added files laid over it. */
    method AddPath(base: bytes, src: Source, message: bytes, now: u64) returns (r: Result<Cid, Error>)
      requires Valid() && ValidUtf8(base) && SourceFits(src) && TextFits(message)
      modifies this`disk, this`clash, this`versions
      ensures Valid()
      ensures disk == AddedDisk(env, old(disk), base, src, message, now)
      ensures clash.None? <==> old(clash).None? && AddsCleanly(env, old(disk), base, src, message, now)
      ensures clash.None? ==> Extends(old(disk), disk)
      ensures Keeps(old(disk), disk)
      ensures r.Ok? <==> AddSucceeds(env, old(disk), base, src)
      ensures r.Ok? ==> disk.head == Some(r.value) && CommittedAs(env, disk, r.value, HeadList(old(disk)), message, now)
      ensures r.Ok? ==> LoadCommit(env, disk, r.value).Ok?
                        && LoadCommit(env, disk, r.value).value.parents
                           == if old(disk).head.None? then [] else [old(disk).head.value]
      ensures r.Ok? ==> HeadTree(env, disk) == Ok(AddedTree(env, old(disk), base, src))
      ensures r.Ok? ==>
                && HeadTree(env, old(disk)).Ok?
                && forall k :: k in HeadTree(env, disk).value && k !in HeadTree(env, old(disk)).value ==>
                     || (src.OneFile? && NormalizeAndValidate(base) == Some(k))
                     || (src.Folder? && exists i ::
                           0 <= i < |src.files| && NormalizeAndValidate(src.files[i].0).Some?
                           && if base == [] then k == NormalizeAndValidate(src.files[i].0).value
                              else NormalizeAndValidate(base).Some?
                                   && k == NormalizeAndValidate(base).value + [47]
                                           + NormalizeAndValidate(src.files[i].0).value)
      ensures r.Ok? ==> versions == old(versions) + [NewVersion(env, disk, r.value)]
      ensures r.Ok? && clash.None? && LastFiles(old(versions)).Some? ==>
                NewVersion(env, disk, r.value)
                    == Version(r.value, true, Some(Overlay(LastFiles(old(versions)).value, Added(base, src).value)))
      ensures r.Err? ==> versions == old(versions) && clash == old(clash) && disk == old(disk).(chunks := disk.chunks)
      ensures r.Err? ==>
                || (Added(base, src).None? && (r.error == InvalidPath || r.error == NothingToAdd))
                || (r.error == Collision && !NoClashIn(env.H, old(disk).chunks, SourceBlobs(env, src)))
                || HeadTree(env, old(disk)) == Err(r.error)
                || (r.error.Codec? && Added(base, src).Some? && HeadTree(env, old(disk)).Ok?
                     && !Encodable(AddedTree(env, old(disk), base, src)))
    {
      hide StoreOk, Trusted, Represents, RestoreTree, CommitOf, TreeOf, WireTree, Encodable, TreeWire, CommitWire,
        MakeCommit, NewVersion, Added, Overlay, EntriesRestore, Entries, SourceBlobs, NoClashIn, OnlyAdded, AllHeld,
        Refused, CommittedAs, HasChunks, Grows, Extends, LoadCommit, LoadTree, PutSource, CommitFits,
        NormalizeAndValidate;
      var es := Gather(base, src);
      ghost var was := old(disk);
      SameHeadTree(env, was, disk);
      ExtendsGrows(was, disk);
      BlobsDecide(env, was, disk, src);
      if es.Err? { return Err(es.error); }
      ghost var fs := Added(base, src).value;
      var before := HeadTree(env, disk);
      if before.Err? { return Err(before.error); }
      HeadTreeIsWire(env, disk);
      var t := AddAll(before.value, es.value, fs, disk.chunks);
      ghost var mid := disk;
      if clash.None? && LastFiles(versions).Some? {
        HeadFiles(env, disk, versions);
        OverlayRestores(env, disk.chunks, before.value, es.value, fs, LastFiles(versions).value);
      }
      var tree := SaveTree(t);
      if tree.Err? { return Err(tree.error); }
      ghost var saved := disk;
      var parents := HeadList(disk);
      var c := CommitHead(tree.value, parents, message, now);
      CommittedLoads(env, disk, c, parents, message, now);
      HeadTreeAfter(env, saved, disk, c, tree.value);
      ExtendsTwice(was, mid, saved);
      ExtendsTwice(was, saved, disk);
      if clash.None? && LastFiles(old(versions)).Some? {
        WholeVersion(env, disk, c, t);
      }
      NewPathsLand(env, was, base, src);
      r := Ok(c);
    }

    /** The loop that lays the new entries over the tree at HEAD. */
    method AddAll(before: TreeMap, es: seq<(Path, Entry)>, ghost fs: seq<(Path, bytes)>, ghost m: Objects)
      returns (t: TreeMap)
      requires WireTree(before) && EntriesRestore(env, m, es, fs)
      ensures t == Overlay(before, es) && WireTree(t)
    {
      hide FileBytes, WirePath, NormalizeAndValidate;
      OverlayKeepsWirePaths(before, es);
      var tree := new Tree();
      tree.entries := before;
      for i := 0 to |es|
        invariant fresh(tree) && tree.entries == Overlay(before, es[..i])
      {
        assert es[..i + 1][..i] == es[..i] && es[..i + 1][i] == es[i];
        WirePathIsNormal(es[i].0);
        var ok := tree.TryAddFile(es[i].0, es[i].1.size, es[i].1.chunks);
      }
      assert es[..|es|] == es;
      t := tree.entries;
    }

    // -------------------------------------------------------------------------------------------
    // Snapshots
    // -------------------------------------------------------------------------------------------

    /** `snapshot`: a new version with the files of the last one, registered, and the registry pruned. */
    method Snapshot(message: bytes, now: u64) returns (r: Result<Cid, Error>)
      requires Valid() && TextFits(message)
      modifies this`disk, this`clash, this`versions
      ensures Valid()
      ensures disk == SnappedDisk(env, old(disk), retain, message, now)
      ensures clash.None? <==> old(clash).None? && SnapsCleanly(env, old(disk), message, now)
      ensures clash.None? ==> Extends(old(disk), disk)
      ensures Keeps(old(disk), disk)
      ensures r.Ok? <==> SnapSucceeds(env, old(disk))
      ensures old(clash).None? ==> r.Ok?
      ensures r.Ok? ==> disk.head == Some(r.value) && disk.heads == old(disk).heads
      ensures r.Ok? ==> disk.registry == Prune(Register(old(disk).registry, r.value), retain)
      ensures r.Ok? ==> CommittedAs(env, disk, r.value, HeadList(old(disk)), message, now)
      ensures r.Ok? ==> LoadCommit(env, disk, r.value).Ok?
                        && var c := LoadCommit(env, disk, r.value).value;
                           if old(disk).head.None? then c.parents == [] && c.tree == env.H(TreeWire(map[]))
                           else
                             && LoadCommit(env, old(disk), old(disk).head.value).Ok?
                             && c.parents == [old(disk).head.value]
                             && c.tree == LoadCommit(env, old(disk), old(disk).head.value).value.tree
      ensures r.Ok? ==> versions == old(versions) + [NewVersion(env, disk, r.value)]
      ensures r.Ok? && clash.None? && LastFiles(old(versions)).Some? ==>
                NewVersion(env, disk, r.value) == Version(r.value, true, LastFiles(old(versions)))
      ensures r.Err? ==> disk == old(disk) && versions == old(versions)
    {
      hide StoreOk, Trusted, RestoreTree, LoadCommit, LoadTree, TreeWire, CommitWire, MakeCommit, Normal, NewVersion,
        Represents, Prune, Register, CommittedAs, TreeRestores, Extends, CommitFits, LastFiles, Encodable;
      ghost var was, vs := disk, versions;
      var tree := TreeToLabel();
      if tree.Err? { return Err(tree.error); }
      ghost var mid := disk;
      var parents := HeadList(disk);
      var h := CommitHead(tree.value, parents, message, now);
      ghost var made := disk;
      var log, _ := PruneLog(Register(disk.registry, h), retain);
      disk := disk.(registry := log);
      SameCommitted(env, made, disk, h, parents, message, now);
      NewRoots(env, made, disk, versions, h);
      CommittedLoads(env, made, h, parents, message, now);
      SnapshotMade(env, was, mid, made, disk, h, tree.value, LastFiles(vs));
      r := Ok(h);
    }

    /** The tree a snapshot labels: HEAD's, or an empty one that is saved first. */
    method TreeToLabel() returns (r: Result<Cid, Error>)
      requires Valid()
      modifies this`disk, this`clash
      ensures Valid()
      ensures r.Ok? <==> SnapSucceeds(env, old(disk))
      ensures r.Ok? ==> r.value == LabelTree(env, old(disk))
      ensures disk == Labelled(env, old(disk))
      ensures r.Err? ==> disk == old(disk) && clash == old(clash)
      ensures clash.None? <==>
                old(clash).None? && (old(disk).head.None? ==> !Clobbers(env.H, old(disk).trees, TreeWire(map[])))
      ensures (clash.None? ==> Extends(old(disk), disk)) && Keeps(old(disk), disk)
      ensures r.Ok? && clash.None? && LastFiles(versions).Some? ==>
                TreeRestores(env, disk, r.value, LastFiles(versions))
      ensures old(clash).None? ==> r.Ok?
    {
      hide StoreOk, Trusted, RestoreTree, CommitOf, TreeOf, TreeWire, Represents, Extends;
      SameGrewHere(disk);
      if disk.head.Some? {
        if clash.None? { HeadLoads(env, disk, versions); }
        if clash.None? && LastFiles(versions).Some? { HeadFiles(env, disk, versions); }
        var c := LoadCommit(env, disk, disk.head.value);
        if c.Err? { return Err(c.error); }
        return Ok(c.value.tree);
      }
      if clash.None? { HeadFilesOfNone(env, disk, versions); }
      EmptyIsEncodable();
      EmptyRestores(env, disk.chunks);
      r := SaveTree(map[]);
    }

    // -------------------------------------------------------------------------------------------
    // Merging
    // -------------------------------------------------------------------------------------------

    /** The loads and the merge in memory. */
    method MergeTrees(remote: Cid, from: bytes) returns (r: Result<(TreeMap, nat), Error>)
      requires Valid()
      ensures r.Ok? <==> Mergeable(env, disk, remote)
      ensures r.Ok? ==>
                r.value == (MergeOf(env, disk, remote, from).tree, |MergeOf(env, disk, remote, from).copied|)
                && WireTree(r.value.0)
      ensures r.Ok? ==>
                && HeadTree(env, disk).Ok? && Loads(env, disk, remote)
                && r.value.0 == MergeConflicts(HeadTree(env, disk).value, TreeAt(env, disk, remote),
                                  CopyName(SanitizeLabel(from))).tree
      ensures r.Err? ==> !Loads(env, disk, remote) || HeadTree(env, disk) == Err(r.error)
    {
      hide StoreOk, Trusted, CommitOf, TreeOf, Represents, MergeConflicts, WireTree, CopyName;
      var rc := LoadCommit(env, disk, remote);
      if rc.Err? { return Err(rc.error); }
      var theirs := LoadTree(env, disk, rc.value.tree);
      if theirs.Err? { return Err(theirs.error); }
      var ours := HeadTree(env, disk);
      if ours.Err? { return Err(ours.error); }
      MergedIsWire(env, disk, remote, from);
      var merged := new Tree();
      merged.entries := ours.value;
      var conflicts := merged.MergeWithConflicts(theirs.value, from);
      r := Ok((merged.entries, conflicts));
    }

    /** `merge_head`. It succeeds exactly when both sides load and the merged tree stays within its cap; then HEAD is
        a commit on both heads, and HEADS is collapsed to it. */
    method MergeHead(remote: Cid, from: bytes, message: bytes, now: u64) returns (r: Result<(Cid, nat), Error>)
      requires Valid() && TextFits(message)
      modifies this`disk, this`clash, this`versions
      ensures Valid()
      ensures r.Ok? <==> MergeSucceeds(env, old(disk), remote, from)
      ensures r.Ok? ==> disk == MergedDisk(env, old(disk), remote, from, message, now)
      ensures r.Ok? ==> disk.head == Some(r.value.0) && r.value.1 == |MergeOf(env, old(disk), remote, from).copied|
      ensures r.Ok? ==> CommittedAs(env, disk, r.value.0, MergeParents(old(disk), remote), message, now)
      ensures r.Ok? ==> LoadCommit(env, disk, r.value.0).Ok?
                        && LoadCommit(env, disk, r.value.0).value.parents
                           == if old(disk).head.None? || old(disk).head.value == remote then [remote]
                              else [old(disk).head.value, remote]
      ensures r.Ok? ==> HeadTree(env, disk) == Ok(MergeOf(env, old(disk), remote, from).tree)
      ensures r.Ok? ==> HeadTree(env, old(disk)).Ok? && Loads(env, old(disk), remote)
                        && HeadTree(env, disk) == Ok(MergeConflicts(HeadTree(env, old(disk)).value,
                             TreeAt(env, old(disk), remote), CopyName(SanitizeLabel(from))).tree)
      ensures r.Ok? ==> versions == old(versions) + [NewVersion(env, disk, r.value.0)]
      ensures r.Ok? ==> (clash.None? <==> old(clash).None? && MergesCleanly(env, old(disk), remote, from, message, now))
      ensures r.Ok? && clash.None? && LastFiles(old(versions)).Some? ==>
                MergedAs(env, old(disk), remote, from, LastFiles(old(versions)).value, NewVersion(env, disk, r.value.0))
      ensures clash.None? ==> Extends(old(disk), disk)
      ensures Keeps(old(disk), disk)
      ensures r.Err? ==> disk == old(disk) && versions == old(versions) && clash == old(clash)
      ensures r.Err? ==>
                || !Loads(env, disk, remote) || HeadTree(env, disk) == Err(r.error)
                || (r.error.Codec? && Mergeable(env, disk, remote) && !Encodable(MergeOf(env, disk, remote, from).tree))
    {
      hide StoreOk, Trusted, RestoreTree, LoadCommit, LoadTree, TreeWire, CommitWire, MakeCommit, Normal, CommittedAs,
        Represents, MergeOf, WireTree, Encodable, HasChunks, MergedAs, Mergeable, NewVersion, Extends, CommitFits,
            Restore, HeadTree;
      ghost var was, vs := disk, versions;
      SameGrewHere(was);
      var merged := MergeTrees(remote, from);
      if merged.Err? { return Err(merged.error); }
      var (t, conflicts) := merged.value;
      var tree := SaveTree(t);
      if tree.Err? { return Err(tree.error); }
      ghost var saved := disk;
      var parents := HeadList(disk);
      if remote !in parents { parents := parents + [remote]; }
      var h := CommitHead(tree.value, parents, message, now);
      ghost var made := disk;
      disk := disk.(heads := {h});
      MergeMade(env, was, saved, made, disk, h, tree.value, t, parents, message, now);
      CommittedLoads(env, disk, h, parents, message, now);
      NewRoots(env, made, disk, versions, h);
      ExtendsTwice(was, saved, disk);
      if clash.None? && LastFiles(vs).Some? {
        MergeIsAs(env, was, vs, remote, from, NewVersion(env, disk, h));
      }
      r := Ok((h, conflicts));
    }

    // -------------------------------------------------------------------------------------------
    // Heads and the registry
    // -------------------------------------------------------------------------------------------

    /** `record_head`: HEADS gains the head and the current HEAD. */
    method RecordHead(c: Cid)
      requires Valid()
      modifies this`disk
      ensures Valid()
      ensures disk
                == old(disk).(heads := old(disk).heads + (if old(disk).head.Some? then {old(disk).head.value} else {})
                    + {c})
    {
      hide StoreOk, Trusted, Represents;
      ghost var before := disk;
      var heads := disk.heads;
      if disk.head.Some? { heads := heads + {disk.head.value}; }
      disk := disk.(heads := heads + {c});
      SameObjects(env, before, disk, versions);
    }

    /** `set_head`, away from the line of versions: a new one starts. */
    method MoveHead(c: Cid)
      requires Valid() && LoadCommit(env, disk, c).Ok?
      modifies this`disk, this`versions
      ensures Valid() && disk == old(disk).(head := Some(c)) && versions == [NewVersion(env, disk, c)]
    {
      hide LoadCommit, NewVersion, Represents, StoreOk, Trusted;
      FirstVersion(env, disk, disk.(head := Some(c)), c);
      disk := disk.(head := Some(c));
      versions := [NewVersion(env, disk, c)];
    }

    /** `set_head_public`: HEAD moves to any commit that loads, and a new list of versions starts there. */
    method SetHeadPublic(c: Cid) returns (r: Result<(), Error>)
      requires Valid()
      modifies this`disk, this`versions
      ensures Valid()
      ensures r.Ok? <==> LoadCommit(env, old(disk), c).Ok?
      ensures r.Ok? ==> disk == Adopted(old(disk), c) && versions == [NewVersion(env, disk, c)]
      ensures r.Err? ==> disk == old(disk) && versions == old(versions)
    {
      hide LoadCommit, NewVersion, Represents, StoreOk, Trusted;
      var commit := LoadCommit(env, disk, c);
      if commit.Err? { return Err(commit.error); }
      MoveHead(c);
      ghost var moved := disk;
      RecordHead(c);
      NewRoots(env, moved, disk, versions, c);
      assert disk.heads == old(disk).heads + {c};
      r := Ok(());
    }

    /** `set_divergent_head`: HEAD stays, unless there was none. */
    method SetDivergentHead(c: Cid) returns (r: Result<(), Error>)
      requires Valid()
      modifies this`disk, this`versions
      ensures Valid()
      ensures r.Ok? <==> LoadCommit(env, old(disk), c).Ok?
      ensures r.Ok? ==>
                disk.heads == old(disk).heads + (if old(disk).head.Some? then {old(disk).head.value} else {})
                + {c}
      ensures r.Ok? ==> disk == old(disk).(heads := disk.heads, head := disk.head)
      ensures r.Ok? ==> if old(disk).head.Some? then disk.head == old(disk).head && versions == old(versions)
                        else disk.head == Some(c) && versions == [NewVersion(env, disk, c)]
      ensures r.Err? ==> disk == old(disk) && versions == old(versions)
    {
      hide LoadCommit, NewVersion, Represents, StoreOk, Trusted;
      var commit := LoadCommit(env, disk, c);
      if commit.Err? { return Err(commit.error); }
      ghost var before := disk;
      RecordHead(c);
      if disk.head.None? {
        FirstVersion(env, before, before.(head := Some(c)), c);
        NewRoots(env, before.(head := Some(c)), disk.(head := Some(c)), [NewVersion(env, before.(head := Some(c)), c)],
            c);
        disk := disk.(head := Some(c));
        versions := [NewVersion(env, disk, c)];
      }
      r := Ok(());
    }

    /** `register_snapshot` */
    method RegisterTip(h: Cid)
      requires Valid()
      modifies this`disk
      ensures Valid()
      ensures disk == old(disk).(registry := Register(old(disk).registry, h))
    {
      hide StoreOk, Trusted, Represents, Register;
      ghost var before := disk;
      disk := disk.(registry := Register(disk.registry, h));
      SameObjects(env, before, disk, versions);
    }

    /** `prune_snapshot_registry` */
    method PruneRegistry(keep: nat) returns (removed: nat)
      requires Valid()
      modifies this`disk
      ensures Valid()
      ensures disk == old(disk).(registry := Prune(old(disk).registry, keep))
                && removed == |old(disk).registry| - |disk.registry|
    {
      hide StoreOk, Trusted, Represents, Prune;
      ghost var before := disk;
      var log, n := PruneLog(disk.registry, keep);
      disk, removed := disk.(registry := log), n;
      SameObjects(env, before, disk, versions);
    }

    // -------------------------------------------------------------------------------------------
    // Importing
    // -------------------------------------------------------------------------------------------

    /** `import_tree_bytes` on a wire object: exactly the wires that hash to their name and load are stored. */
    method ImportTree(h: Cid, data: bytes) returns (r: Result<(), Error>)
      requires Valid()
      modifies this`disk, this`clash
      ensures Valid()
      ensures r.Ok? <==> TreeOf(env.H, h, data).Ok?
      ensures r.Ok? ==> disk == old(disk).(trees := old(disk).trees[h := data])
      ensures clash.None? <==> old(clash).None? && (r.Ok? ==> !Clobbers(env.H, old(disk).trees, data))
      ensures clash == old(clash) || Clobbers(env.H, old(disk).trees, data)
      ensures (clash.None? ==> Extends(old(disk), disk)) && Keeps(old(disk), disk)
      ensures r.Err? ==> disk == old(disk)
    {
      hide Trusted, Represents, DecodeTreeWire, TreeWire, GoodObject;
      var t := TreeOf(env.H, h, data);
      if t.Err? { return Err(t.error); }
      ghost var before := disk;
      if Clobbers(env.H, disk.trees, data) {
        ObjectName(env, disk, h);
        NoteClash(disk.trees, data);
      }
      disk := disk.(trees := disk.trees[h := data]);
      if clash.None? { GrownRepresents(env, before, disk, versions); }
      r := Ok(());
    }

    /** `import_commit_bytes` on a wire object: moreover its signature must be absent or verify. */
    method ImportCommit(h: Cid, data: bytes) returns (r: Result<(), Error>)
      requires Valid()
      modifies this`disk, this`clash
      ensures Valid()
      ensures r.Ok? <==> GoodObject(env, h, data)
      ensures r.Ok? <==> Admissible(env, h, data)
      ensures r.Ok? ==> disk == old(disk).(commits := old(disk).commits[h := data])
      ensures clash.None? <==> old(clash).None? && (r.Ok? ==> !Clobbers(env.H, old(disk).commits, data))
      ensures clash == old(clash) || Clobbers(env.H, old(disk).commits, data)
      ensures (clash.None? ==> Extends(old(disk), disk)) && Keeps(old(disk), disk)
      ensures r.Err? ==> disk == old(disk)
    {
      hide Trusted, Represents, DecodeCommitWire, CommitWire, SignatureOk, GoodCommit, TreeOf;
      ObjectExact(env, h, data);
      var c := CommitOf(env.H, h, data);
      if c.Err? { return Err(c.error); }
      LoadedCommit(env.H, h, data);
      GoodFits(c.value);
      if !SignatureOk(env.H, env.V, c.value) { return Err(BadSignature); }
      ghost var before := disk;
      if Clobbers(env.H, disk.commits, data) {
        ObjectName(env, disk, h);
        NoteClash(disk.commits, data);
      }
      disk := disk.(commits := disk.commits[h := data]);
      if clash.None? { GrownRepresents(env, before, disk, versions); }
      r := Ok(());
    }

    // -------------------------------------------------------------------------------------------
    // Reading
    // -------------------------------------------------------------------------------------------

    /** `is_complete`: looks at the commit, its tree and its chunks, at no ancestor. */
    method IsComplete(c: Cid) returns (r: Result<bool, Error>)
      requires Valid()
      ensures r == Ok(Complete(env, disk, c))
    {
      hide Represents, CommitOf, DecodeTreeWire, TreeWire, SignatureOk, GoodCommit;
      if c !in disk.commits { return Ok(false); }
      assert GoodObject(env, c, disk.commits[c]);
      match LoadCommit(env, disk, c) {
        case Err(e) => r := Err(e);
        case Ok(commit) =>
          if commit.tree !in disk.trees { return Ok(false); }
          match LoadTree(env, disk, commit.tree) {
            case Err(e) => r := Err(e);
            case Ok(t) => r := Ok(ChunksOf(t) <= disk.chunks.Keys);
          }
      }
    }

    /** The chunk loop of `restore`. */
    method ReadFile(e: Entry) returns (r: Option<bytes>)
      requires Valid() && e.File?
      ensures r == FileBytes(env, disk.chunks, e)
    {
      hide Represents, StoreOk, Trusted, ReadChunk;
      var data: bytes := [];
      for i := 0 to |e.chunks|
        invariant ReadChunks(env, disk.chunks, e.chunks[..i]) == Some(data)
      {
        assert e.chunks[..i + 1][..i] == e.chunks[..i] && e.chunks[..i + 1][i] == e.chunks[i];
        var p := ReadChunk(env, disk.chunks, e.chunks[i]);
        if p.None? {
          ReadPrefix(env, disk.chunks, e.chunks, i + 1);
          return None;
        }
        data := data + p.value;
      }
      assert e.chunks[..|e.chunks|] == e.chunks;
      r := if |data| == e.size then Some(data) else None;
    }

    /** `restore`: the files it writes, or nothing if it fails on the way. */
    method RestoreFiles(c: Cid) returns (r: Option<Files>)
      requires Valid()
      ensures r == Restore(env, disk, c)
    {
      hide Represents, StoreOk, Trusted, CommitOf, TreeOf, FileBytes, NormalizeAndValidate, SortedKeys, WirePath,
        Encodable;
      var commit := LoadCommit(env, disk, c);
      if commit.Err? { return None; }
      var tree := LoadTree(env, disk, commit.value.tree);
      if tree.Err? { return None; }
      var t := tree.value;
      LoadedTree(env.H, commit.value.tree, disk.trees[commit.value.tree]);
      var ks := SortedKeys(t.Keys);
      SortedListing(t.Keys);
      var files: Files := map[];
      for i := 0 to |ks|
        invariant forall j :: 0 <= j < i && t[ks[j]].File? ==> WrittenAs(env, disk.chunks, t, files, ks[j])
        invariant forall k :: k in files ==> k in t && t[k].File?
      {
        assert ks[i] in t.Keys;
        if t[ks[i]].File? {
          WirePathIsNormal(ks[i]);
          var path := NormalizeAndValidate(ks[i]);
          var data := ReadFile(t[ks[i]]);
          if path.None? || data.None? { return None; }
          files := files[path.value := data.value];
        }
      }
      r := Some(files);
      ghost var all := RestoreTree(env, disk.chunks, t);
      forall k | k in t && t[k].File? ensures WrittenAs(env, disk.chunks, t, files, k) {
        assert k in ks;
      }
      assert all.Some? && all.value == files;
    }

    // -------------------------------------------------------------------------------------------
    // Garbage collection
    // -------------------------------------------------------------------------------------------

    /** `protected_commit_roots` */
    method ProtectedRoots() returns (roots: seq<Cid>)
      ensures forall h :: h in roots <==> h in Roots(disk)
      ensures forall h :: h in roots <==> disk.head == Some(h) || h in disk.heads || h in disk.registry
    {
      var left := Roots(disk);
      roots := [];
      while left != {}
        invariant forall h :: h in Roots(disk) <==> h in roots || h in left
        decreases |left|
      {
        var h :| h in left;
        roots, left := roots + [h], left - {h};
      }
    }

    /** `gc_unreachable_chunks`: every chunk that is not live is removed and counted; HEAD, the versions and the
        invariant hold after each removal. */
    method GcChunks() returns (r: Result<nat, Error>)
      requires Valid()
      modifies this`disk
      ensures Valid()
      ensures r.Ok?
      ensures disk == old(disk).(chunks := Restrict(old(disk).chunks, LiveChunks(env, old(disk), Roots(old(disk)))))
      ensures r.value == |old(disk).chunks| - |disk.chunks|
    {
      hide Represents, StoreOk, Trusted, LiveChunks, LiveObjects, Roots;
      var roots := ProtectedRoots();
      var marked := MarkChunks(env, disk, roots);
      var live: set<Cid>;
      match marked {
        case Err(e) => return Err(e);
        case Ok(s) => live := s;
      }
      ghost var d, keep := disk, LiveChunks(env, disk, Roots(disk));
      assert (set h | h in roots) == Roots(disk);
      var list, removed := disk.chunks.Keys, 0;
      while list != {}
        invariant Valid() && disk == d.(chunks := disk.chunks)
        invariant Sweeping(d.chunks, disk.chunks, keep, list) && removed + |disk.chunks| == |d.chunks|
        decreases |list|
      {
        var h :| h in list;
        if h !in live {
          SweepRemoves(d.chunks, disk.chunks, keep, list, h);
          disk := disk.(chunks := disk.chunks - {h});
          removed := removed + 1;
          MidSweep(env, d, disk, versions);
        }
        list := list - {h};
      }
      SweepEnds(d.chunks, disk.chunks, keep);
      r := Ok(removed);
    }

    /** `gc_unreachable_objects`: the same for commits and trees. */
    method GcObjects() returns (r: Result<(nat, nat), Error>)
      requires Valid()
      modifies this`disk
      ensures Valid()
      ensures r.Ok?
      ensures disk == old(disk).(commits := Restrict(old(disk).commits, LiveObjects(env, old(disk))),
                                 trees := Restrict(old(disk).trees, LiveObjects(env, old(disk))))
      ensures r.value == (|old(disk).commits| - |disk.commits|, |old(disk).trees| - |disk.trees|)
    {
      hide Represents, StoreOk, Trusted, LiveChunks, LiveCommits, LiveTrees, Roots;
      var roots := ProtectedRoots();
      var marked := MarkObjects(env, disk, roots);
      var live: set<Cid>;
      match marked {
        case Err(e) => return Err(e);
        case Ok(s) => live := s;
      }
      ghost var d, keep := disk, LiveObjects(env, disk);
      assert (set h | h in roots) == Roots(disk);
      var commits := SweepCommits(live, d);
      var trees := SweepTrees(live, d);
      r := Ok((commits, trees));
    }

    method SweepCommits(live: set<Cid>, ghost d: Disk) returns (removed: nat)
      requires Valid() && disk == d && live == LiveObjects(env, d)
      requires clash.None? ==> Represents(env, d, versions)
      modifies this`disk
      ensures Valid() && disk == d.(commits := Restrict(d.commits, live)) && removed == |d.commits| - |disk.commits|
    {
      hide Represents, StoreOk, Trusted, LiveChunks, LiveObjects, Roots;
      var list := disk.commits.Keys;
      removed := 0;
      while list != {}
        invariant Valid() && disk == d.(commits := disk.commits)
        invariant Sweeping(d.commits, disk.commits, live, list) && removed + |disk.commits| == |d.commits|
        decreases |list|
      {
        var h :| h in list;
        if h !in live {
          SweepRemoves(d.commits, disk.commits, live, list, h);
          disk := disk.(commits := disk.commits - {h});
          removed := removed + 1;
          MidSweep(env, d, disk, versions);
        }
        list := list - {h};
      }
      SweepEnds(d.commits, disk.commits, live);
    }

    method SweepTrees(live: set<Cid>, ghost d: Disk) returns (removed: nat)
      requires Valid() && live == LiveObjects(env, d) && disk == d.(commits := Restrict(d.commits, live))
      requires StoreOk(env, d) && (clash.None? ==> Represents(env, d, versions))
      modifies this`disk
      ensures Valid() && disk == old(disk).(trees := Restrict(d.trees, live)) && removed == |d.trees| - |disk.trees|
    {
      hide Represents, StoreOk, Trusted, LiveChunks, LiveObjects, Roots;
      var list := disk.trees.Keys;
      removed := 0;
      while list != {}
        invariant Valid() && disk == old(disk).(trees := disk.trees)
        invariant Sweeping(d.trees, disk.trees, live, list) && removed + |disk.trees| == |d.trees|
        decreases |list|
      {
        var h :| h in list;
        if h !in live {
          SweepRemoves(d.trees, disk.trees, live, list, h);
          disk := disk.(trees := disk.trees - {h});
          removed := removed + 1;
          MidSweep(env, d, disk, versions);
        }
        list := list - {h};
      }
      SweepEnds(d.trees, disk.trees, live);
    }

    /** `gc_all` */
    method GcAll() returns (r: Result<nat, Error>)
      requires Valid()
      modifies this`disk
      ensures Valid()
      ensures disk == Collected(env, old(disk))
      ensures r
                == Ok(|old(disk).chunks| - |disk.chunks| + |old(disk).commits| - |disk.commits|
                    + |old(disk).trees| - |disk.trees|)
    {
      hide Represents, StoreOk, Trusted, LiveChunks, LiveObjects, Roots, Restrict;
      var chunks := GcChunks();
      ChunksDoNotMatter(env, old(disk), disk);
      var objects := GcObjects();
      r := Ok(chunks.value + objects.value.0 + objects.value.1);
    }
  }

  // ---------------------------------------------------------------------------------------------
  // What the methods rest on
  // ---------------------------------------------------------------------------------------------

  /** Everything but the objects and HEAD is of no concern to the versions. */
  lemma SameObjects(env: Env, d: Disk, d': Disk, vs: seq<Version>)
    requires d'.chunks == d.chunks && d'.trees == d.trees && d'.commits == d.commits && d'.head == d.head
    ensures StoreOk(env, d) ==> StoreOk(env, d')
    ensures Represents(env, d, vs) ==> Represents(env, d', vs)
  {
    hide GoodObject, TreeOf, CommitOf, AllKept, Chained;
    if Represents(env, d, vs) {
      GrownRepresents(env, d, d', vs);
    }
  }

  lemma NewRoots(env: Env, d: Disk, d': Disk, vs: seq<Version>, c: Cid)
    requires d'.chunks == d.chunks && d'.trees == d.trees && d'.commits == d.commits && d'.head == d.head
    ensures StoreOk(env, d) ==> StoreOk(env, d')
    ensures Represents(env, d, vs) ==> Represents(env, d', vs)
    ensures NewVersion(env, d', c) == NewVersion(env, d, c)
    ensures LoadCommit(env, d', c) == LoadCommit(env, d, c)
    ensures Loads(env, d', c) == Loads(env, d, c)
    ensures Loads(env, d, c) ==> TreeAt(env, d', c) == TreeAt(env, d, c)
  {
    hide CommitOf, TreeOf, RestoreTree, StoreOk, Represents;
    SameObjects(env, d, d', vs);
  }

  lemma FirstVersion(env: Env, d: Disk, d': Disk, c: Cid)
    requires StoreOk(env, d) && LoadCommit(env, d, c).Ok? && d' == d.(head := Some(c))
    ensures StoreOk(env, d') && Represents(env, d', [NewVersion(env, d', c)])
  {
    hide GoodObject, TreeOf, CommitOf, Restore, Complete;
  }

  lemma SameCommitted(env: Env, d: Disk, d': Disk, h: Cid, parents: seq<Cid>, message: bytes, now: u64)
    requires CommittedAs(env, d, h, parents, message, now) && d'.commits == d.commits
    ensures CommittedAs(env, d', h, parents, message, now) && LoadCommit(env, d', h) == LoadCommit(env, d, h)
  {
    hide CommitOf, MakeCommit, Normal;
  }

  lemma CommittedLoads(env: Env, d: Disk, h: Cid, parents: seq<Cid>, message: bytes, now: u64)
    requires CommittedAs(env, d, h, parents, message, now)
    ensures LoadCommit(env, d, h).Ok? && LoadCommit(env, d, h).value.parents == parents
  {
  }

  ghost predicate TreeRestores(env: Env, d: Disk, tree: Cid, files: Option<Files>) {
    && LoadTree(env, d, tree).Ok?
    && HasChunks(d.chunks, LoadTree(env, d, tree).value)
    && RestoreTree(env, d.chunks, LoadTree(env, d, tree).value) == files
  }

  lemma HeadLoads(env: Env, d: Disk, vs: seq<Version>)
    requires Represents(env, d, vs) && d.head.Some?
    ensures LoadCommit(env, d, d.head.value).Ok?
  {
    hide LoadCommit;
    assert Kept(env, d, vs[|vs| - 1]);
  }

  lemma HeadFilesOfNone(env: Env, d: Disk, vs: seq<Version>)
    requires Represents(env, d, vs) && d.head.None?
    ensures LastFiles(vs) == Some(map[])
  {
  }

  lemma EmptyIsSound(env: Env)
    ensures StoreOk(env, EMPTY) && Represents(env, EMPTY, [])
  {
  }

  lemma {:induction false} ReadPrefix(env: Env, m: Objects, ids: seq<Cid>, n: nat)
    requires n <= |ids| && ReadChunks(env, m, ids[..n]).None?
    ensures ReadChunks(env, m, ids).None?
    decreases |ids|
  {
    hide ReadChunk;
    if n < |ids| {
      var front := ids[..|ids| - 1];
      assert front[..n] == ids[..n];
      ReadPrefix(env, m, front, n);
    } else {
      assert ids[..n] == ids;
    }
  }

  ghost predicate WrittenAs(env: Env, m: Objects, t: TreeMap, files: Files, k: Path) {
    k in t && t[k].File? && NormalizeAndValidate(k) == Some(k) && k in files
        && FileBytes(env, m, t[k]) == Some(files[k])
  }

  /** A sweep over the listed names: what is gone was not to be kept, and what is not to be kept is gone or still
      listed. */
  ghost predicate Sweeping(m: Objects, m': Objects, keep: set<Cid>, list: set<Cid>) {
    && Between(m, m', keep)
    && (forall h :: h in list ==> h in m')
    && (forall h :: h in m' ==> h in keep || h in list)
  }

  lemma SweepRemoves(m: Objects, m': Objects, keep: set<Cid>, list: set<Cid>, h: Cid)
    requires Sweeping(m, m', keep, list) && h in list && h !in keep
    ensures Sweeping(m, m' - {h}, keep, list - {h}) && |m' - {h}| == |m'| - 1
  {
    assert (m' - {h}).Keys == m'.Keys - {h};
  }

  lemma SweepEnds(m: Objects, m': Objects, keep: set<Cid>)
    requires Sweeping(m, m', keep, {})
    ensures m' == Restrict(m, keep)
  {
  }

  /** At any point of a sweep the store is sound and the versions are as before. */
  lemma MidSweep(env: Env, d: Disk, d': Disk, vs: seq<Version>)
    requires Swept(env, d, d')
    ensures StoreOk(env, d) ==> StoreOk(env, d')
    ensures Represents(env, d, vs) ==> Represents(env, d', vs)
  {
    hide StoreOk, Represents, Swept;
    if StoreOk(env, d) { SweptStoreOk(env, d, d'); }
    if Represents(env, d, vs) { SweptRepresents(env, d, d', vs); }
  }

  lemma ChunksDoNotMatter(env: Env, d: Disk, d': Disk)
    requires d' == d.(chunks := d'.chunks)
    ensures LiveObjects(env, d') == LiveObjects(env, d)
  {
    hide CommitOf, Closure;
    SameCommits(env, d, d');
    assert forall c :: TreeName(env, d', c) == TreeName(env, d, c);
  }

  /** The next file's place, and the end if it is refused. */
  lemma PlaceStep(base: Path, files: seq<(bytes, bytes)>, n: nat)
    requires n < |files| && PlaceAll(base, files[..n]).Some?
    ensures match Place(base, files[n].0)
            case None => PlaceAll(base, files).None?
            case Some(p) => PlaceAll(base, files[..n + 1]) == Some(PlaceAll(base, files[..n]).value + [(p, files[n].1)])
  {
    hide Place;
    assert files[..n + 1][..n] == files[..n] && files[..n + 1][n] == files[n];
    if Place(base, files[n].0).None? { PlacePrefix(base, files, n + 1); }
  }

  lemma {:induction false} PlacePrefix(base: Path, files: seq<(bytes, bytes)>, n: nat)
    requires n <= |files| && PlaceAll(base, files[..n]).None?
    ensures PlaceAll(base, files).None?
    decreases |files|
  {
    hide Place;
    if n < |files| {
      var front := files[..|files| - 1];
      assert front[..n] == files[..n];
      PlacePrefix(base, front, n);
    } else {
      assert files[..n] == files;
    }
  }

  lemma ExtendsGrows(d: Disk, d': Disk)
    requires OnlyGrew(d, d')
    ensures Grows(d.chunks, d'.chunks) && Extends(d, d') && Keeps(d, d')
  {
  }

  lemma ExtendsTwice(a: Disk, b: Disk, c: Disk)
    ensures Extends(a, b) && Extends(b, c) ==> Extends(a, c)
    ensures Keeps(a, b) && Keeps(b, c) ==> Keeps(a, c)
  {
  }

  lemma SameKept(d: Disk, d': Disk)
    requires d'.chunks == d.chunks && d'.trees == d.trees && d'.commits == d.commits
    ensures Extends(d, d') && Keeps(d, d')
  {
  }

  lemma SameGrewHere(d: Disk)
    ensures Extends(d, d) && Keeps(d, d)
  {
  }

  /** Whether all blobs could be stored says whether they clash. */
  lemma BlobsDecide(env: Env, d: Disk, d': Disk, src: Source)
    requires StoreOk(env, d') && Grows(d.chunks, d'.chunks) && OnlyAdded(d.chunks, d'.chunks, SourceBlobs(env, src))
    ensures AllHeld(env.H, d'.chunks, SourceBlobs(env, src)) ==> NoClashIn(env.H, d.chunks, SourceBlobs(env, src))
    ensures Refused(env.H, d'.chunks, SourceBlobs(env, src)) ==> !NoClashIn(env.H, d.chunks, SourceBlobs(env, src))
  {
    hide SourceBlobs, Refused, AllHeld, NoClashIn, OnlyAdded, Grows, TreeOf, GoodObject;
    if AllHeld(env.H, d'.chunks, SourceBlobs(env, src)) {
      HeldHaveNoClash(env.H, d.chunks, d'.chunks, SourceBlobs(env, src));
    }
    if Refused(env.H, d'.chunks, SourceBlobs(env, src)) {
      RefusedIsClash(env.H, d.chunks, d'.chunks, SourceBlobs(env, src));
    }
  }

  /** The tree at the new HEAD is the one that was saved. */
  lemma HeadTreeAfter(env: Env, d: Disk, d': Disk, c: Cid, tree: Cid)
    requires d'.trees == d.trees && d'.head == Some(c) && LoadCommit(env, d', c).Ok?
              && LoadCommit(env, d', c).value.tree == tree
    ensures HeadTree(env, d') == LoadTree(env, d, tree)
  {
    hide CommitOf, TreeOf;
  }

  /** After the last write of a snapshot. */
  lemma SnapshotMade(env: Env, was: Disk, mid: Disk, made: Disk, d: Disk, h: Cid, tree: Cid, files: Option<Files>)
    requires d == made.(registry := d.registry) && made.trees == mid.trees && made.chunks == mid.chunks
    requires LoadCommit(env, made, h).Ok? && LoadCommit(env, made, h).value.tree == tree
    ensures TreeRestores(env, mid, tree, files) ==> NewVersion(env, d, h) == Version(h, true, files)
    ensures Extends(was, mid) && Extends(mid, made) ==> Extends(was, d)
    ensures Keeps(was, mid) && Keeps(mid, made) ==> Keeps(was, d)
  {
    hide CommitOf, TreeOf, RestoreTree;
    if TreeRestores(env, mid, tree, files) { WholeVersion(env, d, h, LoadTree(env, mid, tree).value); }
  }

  /** After the last write of a merge. */
  lemma MergeMade(env: Env, was: Disk, saved: Disk, made: Disk, d: Disk, h: Cid, tree: Cid, t: TreeMap,
                  parents: seq<Cid>, message: bytes, now: u64)
    requires d == made.(heads := {h}) && made.trees == saved.trees && made.head == Some(h) && made.chunks == was.chunks
    requires CommittedAs(env, made, h, parents, message, now) && LoadCommit(env, made, h).value.tree == tree
              && LoadTree(env, saved, tree) == Ok(t)
    ensures CommittedAs(env, d, h, parents, message, now) && HeadTree(env, d) == Ok(t)
    ensures HasChunks(was.chunks, t) ==> NewVersion(env, d, h) == Version(h, true, RestoreTree(env, was.chunks, t))
    ensures Extends(saved, made) ==> Extends(saved, d)
    ensures Keeps(saved, made) ==> Keeps(saved, d)
  {
    hide CommitOf, TreeOf, RestoreTree, MakeCommit, Normal;
    SameCommitted(env, made, d, h, parents, message, now);
    if HasChunks(was.chunks, t) { WholeVersion(env, d, h, t); }
  }

  lemma NoEntriesYet(env: Env, m: Objects)
    ensures EntriesRestore(env, m, [], []) && FilesFit([]) && Entries(env, []) == []
  {
  }

  lemma OneMoreFile(env: Env, fs: seq<(Path, bytes)>, p: Path, data: bytes)
    requires FilesFit(fs) && Fits(|data|)
    ensures FilesFit(fs + [(p, data)])
              && Entries(env, fs + [(p, data)]) == Entries(env, fs) + [(p, FileEntry(env, data))]
  {
    hide FileEntry;
  }

  lemma HeldBlobs(env: Env, m: Objects, data: bytes)
    requires Holds(env, m, Chunks(data, env.cut(data)))
    ensures AllHeld(env.H, m, Blobs(env, data))
  {
    hide Chunks;
  }

  lemma NoBlobsYet(env: Env, m: Objects, files: seq<(bytes, bytes)>)
    ensures AllHeld(env.H, m, SourceBlobs(env, Folder(files[..0]))) && OnlyAdded(m, m, SourceBlobs(env, Folder(files)))
  {
    hide Blobs;
  }

  lemma BlobsOfFolder(env: Env, files: seq<(bytes, bytes)>, i: nat)
    requires i < |files|
    ensures Blobs(env, files[i].1) <= SourceBlobs(env, Folder(files))
    ensures SourceBlobs(env, Folder(files[..i + 1])) == SourceBlobs(env, Folder(files[..i])) + Blobs(env, files[i].1)
  {
    hide Blobs;
    var front, more := files[..i], files[..i + 1];
    assert forall j :: 0 <= j < i ==> front[j] == more[j];
    assert more[i] == files[i];
  }

  lemma MoreBlobs(H: bytes -> Cid, m: Objects, m1: Objects, m2: Objects, all: set<bytes>, blobs: set<bytes>)
    requires OnlyAdded(m, m1, all) && OnlyAdded(m1, m2, blobs) && Grows(m1, m2) && blobs <= all
    ensures OnlyAdded(m, m2, all)
    ensures Refused(H, m2, blobs) ==> Refused(H, m2, all)
  {
  }

  lemma MoreHeld(H: bytes -> Cid, m1: Objects, m2: Objects, before: set<bytes>, blobs: set<bytes>)
    requires AllHeld(H, m1, before) && Grows(m1, m2)
    ensures AllHeld(H, m2, blobs) ==> AllHeld(H, m2, before + blobs)
  {
  }

  lemma SameHeadTree(env: Env, d: Disk, d': Disk)
    requires d'.head == d.head && d'.commits == d.commits && d'.trees == d.trees
    ensures HeadTree(env, d') == HeadTree(env, d)
  {
  }
}
