/** The refinement: a vault is a list of versions, each a commit with the files it restores to. */
module Versions {
  import opened Bytes
  import opened Texts
  import opened Paths
  import opened Trees
  import opened Cbor
  import opened TreeCodec
  import opened Frames
  import opened Commits
  import opened Disks

  /** A commit that was HEAD, whether it was complete when it became HEAD, and what it then restored to. */
  datatype Version = Version(commit: Cid, whole: bool, files: Option<Files>)

  /** The commit loads; if it was whole it is complete and restores to what it restored to. */
  ghost predicate Kept(env: Env, d: Disk, v: Version) {
    && LoadCommit(env, d, v.commit).Ok?
    && (v.whole ==> Complete(env, d, v.commit) && Restore(env, d, v.commit) == v.files)
  }

  ghost predicate AllKept(env: Env, d: Disk, vs: seq<Version>) {
    forall i :: 0 <= i < |vs| ==> Kept(env, d, vs[i])
  }

  ghost predicate IsParent(env: Env, d: Disk, p: Cid, c: Cid) {
    LoadCommit(env, d, c).Ok? && p in LoadCommit(env, d, c).value.parents
  }

  /** Each version's commit is a parent of the next one's. */
  ghost predicate Chained(env: Env, d: Disk, vs: seq<Version>) {
    forall i, j :: 0 <= i && j == i + 1 && j < |vs| ==> IsParent(env, d, vs[i].commit, vs[j].commit)
  }

  predicate HeadIs(d: Disk, vs: seq<Version>) {
    d.head == if vs == [] then None else Some(vs[|vs| - 1].commit)
  }

  /** The disk behaves like the list of versions. */
  ghost predicate Represents(env: Env, d: Disk, vs: seq<Version>) {
    HeadIs(d, vs) && AllKept(env, d, vs) && Chained(env, d, vs)
  }

  ghost function NewVersion(env: Env, d: Disk, c: Cid): Version {
    Version(c, Complete(env, d, c), Restore(env, d, c))
  }

  lemma ExtendingKeepsOne(env: Env, d: Disk, d': Disk, v: Version)
    requires Kept(env, d, v) && Extends(d, d')
    ensures Kept(env, d', v) && forall p :: IsParent(env, d, p, v.commit) ==> IsParent(env, d', p, v.commit)
  {
    hide CommitOf, TreeOf, RestoreTree;
    if v.whole {
      ExtendsRestore(env, d, d', v.commit);
    }
  }

  /** Objects may be added at any time. */
  lemma ExtendingKeeps(env: Env, d: Disk, d': Disk, vs: seq<Version>)
    requires AllKept(env, d, vs) && Chained(env, d, vs) && Extends(d, d')
    ensures AllKept(env, d', vs) && Chained(env, d', vs)
  {
    hide Extends, Kept, IsParent;
    forall i | 0 <= i < |vs| ensures Kept(env, d', vs[i]) {
      ExtendingKeepsOne(env, d, d', vs[i]);
    }
    forall i, j | 0 <= i && j == i + 1 && j < |vs| ensures IsParent(env, d', vs[i].commit, vs[j].commit) {
      ExtendingKeepsOne(env, d, d', vs[j]);
    }
  }

  /** A new commit on top of HEAD is a new version; all others stay. */
  lemma NewHead(env: Env, d: Disk, d': Disk, vs: seq<Version>, c: Cid)
    requires Represents(env, d, vs) && Extends(d, d') && d'.head == Some(c) && LoadCommit(env, d', c).Ok?
    requires d.head.Some? ==> IsParent(env, d', d.head.value, c)
    ensures Represents(env, d', vs + [NewVersion(env, d', c)])
  {
    hide Extends, IsParent, LoadCommit, Complete, Restore;
    ExtendingKeeps(env, d, d', vs);
    var all := vs + [NewVersion(env, d', c)];
    assert Kept(env, d', NewVersion(env, d', c));
    forall i | 0 <= i < |all| ensures Kept(env, d', all[i]) {
      assert i < |vs| ==> all[i] == vs[i];
    }
    forall i, j | 0 <= i && j == i + 1 && j < |all| ensures IsParent(env, d', all[i].commit, all[j].commit) {
      assert all[i] == vs[i];
      assert j < |vs| ==> all[j] == vs[j];
    }
  }

  // ---------------------------------------------------------------------------------------------
  // Making a commit
  // ---------------------------------------------------------------------------------------------

  // "soal-local"
  const LOCAL_AUTHOR: bytes := [115, 111, 97, 108, 45, 108, 111, 99, 97, 108]

  predicate TextFits(message: bytes) { ValidUtf8(message) && Fits(|message|) }

  /** `make_commit` */
  function MakeCommit(env: Env, tree: Cid, parents: seq<Cid>, message: bytes, now: u64): Commit
    requires |parents| <= MAX_COMMIT_PARENTS && TextFits(message)
  {
    var c := Commit(tree, parents, LOCAL_AUTHOR, now, message, PROTOCOL_VERSION, None);
    match env.who
    case Anonymous => c
    case Node(pk, sign) => Signed(env.H, sign, pk, c)
  }

  lemma MadeCommitIsGood(env: Env, tree: Cid, parents: seq<Cid>, message: bytes, now: u64)
    requires Trusted(env) && |parents| <= MAX_COMMIT_PARENTS && TextFits(message)
    ensures var c := MakeCommit(env, tree, parents, message, now);
            && GoodCommit(c) && c.tree == tree && c.parents == parents
            && CommitFits(Normal(env.H, c)) && SignatureOk(env.H, env.V, Normal(env.H, c))
  {
    hide SignMessage, HexEncode, Normal, AuthorId, SignatureOk, ValidUtf8, DecodeCommit, CommitBody;
    var c := Commit(tree, parents, LOCAL_AUTHOR, now, message, PROTOCOL_VERSION, None);
    match env.who {
      case Anonymous =>
        UnsignedIsOk(env, c);
        SignatureSurvives(env.H, env.V, c);
      case Node(pk, sign) =>
        SignedVerifies(env.H, env.V, sign, pk, c);
        SignatureSurvives(env.H, env.V, Signed(env.H, sign, pk, c));
    }
  }

  /** A commit the vault makes has the given tree, parents, time and message. With a key its author is the key and its
      signature that of its preimage; without one it is nobody's and unsigned. */
  lemma MadeCommitIs(env: Env, tree: Cid, parents: seq<Cid>, message: bytes, now: u64)
    requires |parents| <= MAX_COMMIT_PARENTS && TextFits(message)
    ensures var c := MakeCommit(env, tree, parents, message, now);
            && c.tree == tree && c.parents == parents && c.timestamp == now && c.message == message && c.version == 1
            && CommitFits(c)
            && match env.who
               case Anonymous => c.author == Ascii("soal-local") && c.signature == None
               case Node(pk, sign) =>
                 c.author == HexEncode(pk.raw) && c.signature == Some(HexEncode(sign(SignMessage(env.H, c))))
  {
    hide SignMessage, HexEncode, ValidUtf8;
    var c := Commit(tree, parents, LOCAL_AUTHOR, now, message, PROTOCOL_VERSION, None);
    match env.who {
      case Anonymous => assert LOCAL_AUTHOR == Ascii("soal-local");
      case Node(pk, sign) => SignedIs(env.H, sign, pk, c);
    }
  }

  lemma MadeCommitFits(env: Env, tree: Cid, parents: seq<Cid>, message: bytes, now: u64)
    requires |parents| <= MAX_COMMIT_PARENTS && TextFits(message)
    ensures CommitFits(MakeCommit(env, tree, parents, message, now))
  {
    hide SignMessage, HexEncode, ValidUtf8;
  }

  lemma UnsignedIsOk(env: Env, c: Commit)
    requires CommitFits(c) && c.signature == None
    ensures SignatureOk(env.H, env.V, c)
  {
  }

  /** A write under a hash that another object already has. */
  predicate Clobbers(H: bytes -> Cid, m: Objects, w: bytes) {
    H(w) in m && m[H(w)] != w
  }

  /** The disk after `save_tree`. */
  function TreeSaved(env: Env, d: Disk, t: TreeMap): Disk
    requires Encodable(t)
  {
    d.(trees := d.trees[env.H(TreeWire(t)) := TreeWire(t)])
  }

  /** The disk after `save_commit` and `set_head`. */
  function CommitSaved(env: Env, d: Disk, c: Commit): Disk
    requires CommitFits(c)
  {
    var w := CommitWire(env.H, c);
    d.(commits := d.commits[env.H(w) := w], head := Some(env.H(w)))
  }

  lemma TreeSavedOk(env: Env, d: Disk, t: TreeMap)
    requires StoreOk(env, d) && WireTree(t) && Encodable(t)
    ensures var d' := TreeSaved(env, d, t);
            && StoreOk(env, d')
            && LoadTree(env, d', env.H(TreeWire(t))) == Ok(t)
            && (!Clobbers(env.H, d.trees, TreeWire(t)) ==> Extends(d, d'))
  {
    hide TreeOf, TreeWire, GoodObject, WireTree, Encodable;
    SavedTreeLoads(env.H, t);
  }

  lemma CommitSavedOk(env: Env, d: Disk, tree: Cid, parents: seq<Cid>, message: bytes, now: u64)
    requires Trusted(env) && StoreOk(env, d) && |parents| <= MAX_COMMIT_PARENTS && TextFits(message)
    ensures var c := MakeCommit(env, tree, parents, message, now);
            && CommitFits(c)
            && var d' := CommitSaved(env, d, c);
            && StoreOk(env, d')
            && LoadCommit(env, d', d'.head.value) == Ok(Normal(env.H, c))
            && Normal(env.H, c).tree == tree && Normal(env.H, c).parents == parents
            && (!Clobbers(env.H, d.commits, CommitWire(env.H, c)) ==> Extends(d, d'))
  {
    hide CommitOf, CommitWire, TreeOf, MakeCommit, SignatureOk, TextFits, GoodCommit, CommitFits;
    var c := MakeCommit(env, tree, parents, message, now);
    MadeCommitIsGood(env, tree, parents, message, now);
    GoodFits(c);
    WrittenCommitOk(env, d, c);
  }

  lemma GoodFits(c: Commit)
    requires GoodCommit(c)
    ensures CommitFits(c)
  {
  }

  lemma WrittenCommitOk(env: Env, d: Disk, c: Commit)
    requires StoreOk(env, d) && GoodCommit(c) && CommitFits(Normal(env.H, c))
              && SignatureOk(env.H, env.V, Normal(env.H, c))
    ensures var d' := CommitSaved(env, d, c);
            && StoreOk(env, d')
            && LoadCommit(env, d', d'.head.value) == Ok(Normal(env.H, c))
            && (!Clobbers(env.H, d.commits, CommitWire(env.H, c)) ==> Extends(d, d'))
  {
    hide CommitOf, CommitWire, TreeOf, SignatureOk, GoodCommit, GoodObject, StoreOk, Normal, Extends, CommitFits;
    GoodFits(c);
    WrittenObject(env, c);
    CommitPut(env, d, CommitWire(env.H, c));
  }

  lemma CommitPut(env: Env, d: Disk, w: bytes)
    requires StoreOk(env, d) && GoodObject(env, env.H(w), w)
    ensures var d' := d.(commits := d.commits[env.H(w) := w], head := Some(env.H(w)));
            StoreOk(env, d') && (!Clobbers(env.H, d.commits, w) ==> Extends(d, d'))
  {
    hide TreeOf, GoodObject;
  }

  lemma WrittenObject(env: Env, c: Commit)
    requires GoodCommit(c) && CommitFits(Normal(env.H, c)) && SignatureOk(env.H, env.V, Normal(env.H, c))
    ensures var w := CommitWire(env.H, c);
            GoodObject(env, env.H(w), w) && CommitOf(env.H, env.H(w), w) == Ok(Normal(env.H, c))
  {
    hide CommitOf, CommitWire, SignatureOk, GoodCommit;
    SavedCommitLoads(env.H, c);
    LoadedCommit(env.H, env.H(CommitWire(env.H, c)), CommitWire(env.H, c));
  }

  // ---------------------------------------------------------------------------------------------
  // What the files of a version are
  // ---------------------------------------------------------------------------------------------

  function Overlay<T>(m: map<Path, T>, l: seq<(Path, T)>): map<Path, T> {
    if l == [] then m else Overlay(m, l[..|l| - 1])[l[|l| - 1].0 := l[|l| - 1].1]
  }

  /** What is laid over a map: at each key the last one laid there, and where none is laid what was there. */
  lemma {:induction false} OverlayExact<T>(m: map<Path, T>, l: seq<(Path, T)>, k: Path)
    ensures k in Overlay(m, l) <==> k in m || exists i :: 0 <= i < |l| && l[i].0 == k
    ensures k in m && (forall i :: 0 <= i < |l| ==> l[i].0 != k) ==> Overlay(m, l)[k] == m[k]
    ensures forall i :: 0 <= i < |l| && l[i].0 == k && (forall j :: i < j < |l| ==> l[j].0 != k) ==>
              k in Overlay(m, l) && Overlay(m, l)[k] == l[i].1
    decreases |l|
  {
    if l != [] {
      var n := |l| - 1;
      OverlayExact(m, l[..n], k);
      if k in Overlay(m, l[..n]) && k !in m {
        var i :| 0 <= i < n && l[..n][i].0 == k;
        assert l[i].0 == k;
      }
    }
  }

  /** The entries to add restore to the files to add, path by path. */
  ghost predicate EntriesRestore(env: Env, m: Objects, es: seq<(Path, Entry)>, fs: seq<(Path, bytes)>) {
    && |es| == |fs|
    && forall i :: 0 <= i < |es| ==>
         && es[i].0 == fs[i].0 && WirePath(es[i].0) && es[i].1.File?
         && FileBytes(env, m, es[i].1) == Some(fs[i].1)
         && forall h :: h in es[i].1.chunks ==> h in m
  }

  /** Adding entries to a tree adds their files to what it restores. */
  lemma {:induction false} OverlayRestores(env: Env, m: Objects, t: TreeMap, es: seq<(Path, Entry)>,
                                           fs: seq<(Path, bytes)>, files: Files)
    requires EntriesRestore(env, m, es, fs)
    requires HasChunks(m, t) && RestoreTree(env, m, t) == Some(files)
    ensures HasChunks(m, Overlay(t, es)) && RestoreTree(env, m, Overlay(t, es)) == Some(Overlay(files, fs))
    decreases |es|
  {
    hide FileBytes, NormalizeAndValidate, WirePath;
    if es != [] {
      var n := |es| - 1;
      OverlayRestores(env, m, t, es[..n], fs[..n], files);
      OneMoreRestores(env, m, Overlay(t, es[..n]), es[n].0, es[n].1, fs[n].1, Overlay(files, fs[..n]));
    }
  }

  lemma OneMoreRestores(env: Env, m: Objects, t: TreeMap, p: Path, e: Entry, data: bytes, files: Files)
    requires WirePath(p) && e.File? && FileBytes(env, m, e) == Some(data) && forall h :: h in e.chunks ==> h in m
    requires HasChunks(m, t) && RestoreTree(env, m, t) == Some(files)
    ensures HasChunks(m, t[p := e]) && RestoreTree(env, m, t[p := e]) == Some(files[p := data])
  {
    hide FileBytes, NormalizeAndValidate, WirePath;
    WirePathIsNormal(p);
    var t' := t[p := e];
    assert Restorable(env, m, t');
    var a, b := RestoreTree(env, m, t').value, files[p := data];
    assert a == b by {
      assert forall k :: k in a <==> k in b;
      assert forall k :: k in a ==> a[k] == b[k];
    }
  }

  lemma WirePathIsNormal(p: Path)
    requires WirePath(p)
    ensures NormalizeAndValidate(p) == Some(p)
  {
    ValidIsNormal(p);
  }

  lemma {:induction false} OverlayKeepsWirePaths(t: TreeMap, es: seq<(Path, Entry)>)
    requires WireTree(t) && forall i :: 0 <= i < |es| ==> WirePath(es[i].0)
    ensures WireTree(Overlay(t, es))
    decreases |es|
  {
    hide WirePath;
    if es != [] {
      OverlayKeepsWirePaths(t, es[..|es| - 1]);
    }
  }

  /** Where a merge puts a file of theirs: at its path, or at its conflict copy's. */
  ghost function CopyPlace(ours: TreeMap, theirs: TreeMap, name: Path -> Path, k: Path): Path {
    if Divergent(ours, theirs, k) then name(k) else k
  }

  /** The files of a merge: ours where they were, theirs at their places, and no others. */
  ghost predicate MergedFiles(ours: TreeMap, theirs: TreeMap, name: Path -> Path, lf: Files, rf: Files, mf: Files) {
    && (forall k :: k in lf ==> k in mf && mf[k] == lf[k])
    && (forall k :: k in rf ==> var q := CopyPlace(ours, theirs, name, k); q in mf && mf[q] == rf[k])
    && (forall q :: q in mf ==> q in lf || exists k :: k in rf && CopyPlace(ours, theirs, name, k) == q)
  }

  /** Every entry of a merge is an entry of one side. */
  lemma {:induction false} EntriesOfMerge(ours: TreeMap, theirs: TreeMap, ks: seq<Path>, n: nat, name: Path -> Path,
                                          k: Path)
    requires n <= |ks| && forall i :: 0 <= i < |ks| ==> ks[i] in theirs
    requires k in MergePrefix(ours, theirs, ks, n, name).tree
    ensures var e := MergePrefix(ours, theirs, ks, n, name).tree[k];
            (exists q :: q in ours && ours[q] == e) || (exists q :: q in theirs && theirs[q] == e)
    decreases n
  {
    if n > 0 {
      var m := MergePrefix(ours, theirs, ks, n - 1, name);
      assert ks[n - 1] in theirs;
      if k in m.tree { EntriesOfMerge(ours, theirs, ks, n - 1, name, k); }
    }
  }

  /** A merge of two trees that can be restored can be restored, clash or not. */
  lemma MergeRestores(env: Env, m: Objects, ours: TreeMap, theirs: TreeMap, name: Path -> Path)
    requires KeepsWirePaths(name) && WireTree(ours) && WireTree(theirs)
    requires RestoreTree(env, m, ours).Some? && RestoreTree(env, m, theirs).Some?
    ensures RestoreTree(env, m, MergeConflicts(ours, theirs, name).tree).Some?
  {
    hide FileBytes, NormalizeAndValidate, WirePath, MergePrefix;
    var t, ks := MergeConflicts(ours, theirs, name).tree, SortedKeys(theirs.Keys);
    MergeKeepsWirePaths(ours, theirs, name);
    SortedListing(theirs.Keys);
    forall k | k in t && t[k].File? ensures NormalizeAndValidate(k) == Some(k) && FileBytes(env, m, t[k]).Some? {
      WirePathIsNormal(k);
      EntriesOfMerge(ours, theirs, ks, |ks|, name, k);
    }
  }

  /** Without clash it restores every file of both sides. */
  lemma MergeRestoresBoth(env: Env, m: Objects, ours: TreeMap, theirs: TreeMap, name: Path -> Path)
    requires Injective(name) && KeepsWirePaths(name) && NoClash(ours, theirs, name) && WireTree(ours)
              && WireTree(theirs)
    requires RestoreTree(env, m, ours).Some? && RestoreTree(env, m, theirs).Some?
    ensures RestoreTree(env, m, MergeConflicts(ours, theirs, name).tree).Some?
    ensures MergedFiles(ours, theirs, name, RestoreTree(env, m, ours).value, RestoreTree(env, m, theirs).value,
              RestoreTree(env, m, MergeConflicts(ours, theirs, name).tree).value)
  {
    hide FileBytes, NormalizeAndValidate, WirePath, MergeConflicts, WireTree, KeepsWirePaths;
    MergeRestores(env, m, ours, theirs, name);
    MergeLosesNothing(ours, theirs, name);
    var t := MergeConflicts(ours, theirs, name).tree;
    var lf, rf, mf := RestoreTree(env, m, ours).value, RestoreTree(env, m, theirs).value, RestoreTree(env, m, t).value;
    forall k | k in rf ensures var q := CopyPlace(ours, theirs, name, k); q in mf && mf[q] == rf[k] {
    }
    forall q | q in mf && q !in lf ensures exists k :: k in rf && CopyPlace(ours, theirs, name, k) == q {
      if q in theirs && !Divergent(ours, theirs, q) {
        assert q in rf && CopyPlace(ours, theirs, name, q) == q;
      } else if q !in ours {
        var k :| k in theirs && Divergent(ours, theirs, k) && q == name(k);
        assert k in rf && CopyPlace(ours, theirs, name, k) == q;
      }
    }
  }

  /** Without any premise a merge of trees whose chunks are here has all its chunks here. */
  lemma MergeHasChunks(m: Objects, ours: TreeMap, theirs: TreeMap, name: Path -> Path)
    requires HasChunks(m, ours) && HasChunks(m, theirs)
    ensures HasChunks(m, MergeConflicts(ours, theirs, name).tree)
  {
    var ks := SortedKeys(theirs.Keys);
    SortedListing(theirs.Keys);
    PrefixHasChunks(m, ours, theirs, ks, |ks|, name);
  }

  lemma {:induction false} PrefixHasChunks(m: Objects, ours: TreeMap, theirs: TreeMap, ks: seq<Path>, n: nat,
                                           name: Path -> Path)
    requires HasChunks(m, ours) && HasChunks(m, theirs)
    requires n <= |ks| && forall i :: 0 <= i < |ks| ==> ks[i] in theirs
    ensures HasChunks(m, MergePrefix(ours, theirs, ks, n, name).tree)
    decreases n
  {
    if n > 0 {
      PrefixHasChunks(m, ours, theirs, ks, n - 1, name);
    }
  }
}
