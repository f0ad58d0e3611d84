/** What `merge_head` of src/vault.rs does to a disk, and which heads a later collection leaves. */
module Merging {
  import opened Bytes
  import opened Paths
  import opened Trees
  import opened TreeCodec
  import opened Frames
  import opened Commits
  import opened Disks
  import opened Versions
  import opened Adding
  import opened Reach
  import opened Gc

  /** HEAD and the remote head, each once. */
  function MergeParents(d: Disk, remote: Cid): seq<Cid> {
    if remote in HeadList(d) then HeadList(d) else HeadList(d) + [remote]
  }

  /** Both sides of the merge load. */
  predicate Mergeable(env: Env, d: Disk, remote: Cid) {
    Loads(env, d, remote) && HeadTree(env, d).Ok?
  }

  function MergeOf(env: Env, d: Disk, remote: Cid, from: bytes): Trees.Merge
    requires Mergeable(env, d, remote)
  {
    MergeConflicts(HeadTree(env, d).value, TreeAt(env, d, remote), CopyName(SanitizeLabel(from)))
  }

  /** When a merge succeeds: both sides load, and the merged tree stays within its cap. */
  predicate MergeSucceeds(env: Env, d: Disk, remote: Cid, from: bytes) {
    Mergeable(env, d, remote) && Encodable(MergeOf(env, d, remote, from).tree)
  }

  function MergeTree(env: Env, d: Disk, remote: Cid, from: bytes): Cid
    requires MergeSucceeds(env, d, remote, from)
  {
    env.H(TreeWire(MergeOf(env, d, remote, from).tree))
  }

  function MergeCommit(env: Env, d: Disk, remote: Cid, from: bytes, message: bytes, now: u64): Commit
    requires MergeSucceeds(env, d, remote, from) && TextFits(message)
  {
    MakeCommit(env, MergeTree(env, d, remote, from), MergeParents(d, remote), message, now)
  }

  /** The disk after a successful merge. */
  function MergedDisk(env: Env, d: Disk, remote: Cid, from: bytes, message: bytes, now: u64): Disk
    requires MergeSucceeds(env, d, remote, from) && TextFits(message)
  {
    var c := MergeCommit(env, d, remote, from, message, now);
    MadeCommitFits(env, MergeTree(env, d, remote, from), MergeParents(d, remote), message, now);
    var d' := CommitSaved(env, TreeSaved(env, d, MergeOf(env, d, remote, from).tree), c);
    d'.(heads := {d'.head.value})
  }

  /** The merge writes no object in place of a different one. */
  predicate MergesCleanly(env: Env, d: Disk, remote: Cid, from: bytes, message: bytes, now: u64)
    requires MergeSucceeds(env, d, remote, from) && TextFits(message)
  {
    var c := MergeCommit(env, d, remote, from, message, now);
    MadeCommitFits(env, MergeTree(env, d, remote, from), MergeParents(d, remote), message, now);
    && !Clobbers(env.H, d.trees, TreeWire(MergeOf(env, d, remote, from).tree))
    && !Clobbers(env.H, d.commits, CommitWire(env.H, c))
  }

  /** Such a merge adds objects and takes none away. */
  lemma MergesOnlyAdd(env: Env, d: Disk, remote: Cid, from: bytes, message: bytes, now: u64)
    requires MergeSucceeds(env, d, remote, from) && TextFits(message)
              && MergesCleanly(env, d, remote, from, message, now)
    ensures Extends(d, MergedDisk(env, d, remote, from, message, now))
  {
    hide MergeSucceeds, MergeOf, MergeTree, MakeCommit, TreeWire, CommitWire, CommitFits, Encodable, MergeCommit;
  }

  /** What leads to a commit once the merge is made: HEAD, the remote head and the registered snapshots. */
  function MergeRoots(d: Disk, remote: Cid): set<Cid> {
    (set p | p in MergeParents(d, remote)) + (set h | h in d.registry)
  }

  /** What loads from the merged disk: the merge itself, and everything that loaded before. */
  lemma MergedDiskOk(env: Env, d: Disk, remote: Cid, from: bytes, message: bytes, now: u64)
    requires Trusted(env) && StoreOk(env, d) && TextFits(message) && MergeSucceeds(env, d, remote, from)
    requires MergesCleanly(env, d, remote, from, message, now)
    ensures var d', m := MergedDisk(env, d, remote, from, message, now),
              MergedDisk(env, d, remote, from, message, now).head.value;
            && Extends(d, d') && d'.commits.Keys == d.commits.Keys + {m}
            && LoadCommit(env, d', m).Ok? && LoadCommit(env, d', m).value.parents == MergeParents(d, remote)
            && LoadCommit(env, d', m).value.tree == MergeTree(env, d, remote, from)
  {
    hide StoreOk, Trusted, CommitOf, TreeOf, TreeWire, CommitWire, MakeCommit, Normal, MergeConflicts, Encodable,
      WireTree, SanitizeLabel, CommitFits;
    var t, c := MergeOf(env, d, remote, from).tree, MergeCommit(env, d, remote, from, message, now);
    MergedIsWire(env, d, remote, from);
    MadeCommitFits(env, MergeTree(env, d, remote, from), MergeParents(d, remote), message, now);
    TreeSavedOk(env, d, t);
    CommitSavedOk(env, TreeSaved(env, d, t), MergeTree(env, d, remote, from), MergeParents(d, remote), message, now);
    SameCommits(env, CommitSaved(env, TreeSaved(env, d, t), c), MergedDisk(env, d, remote, from, message, now));
  }

  lemma MergedIsWire(env: Env, d: Disk, remote: Cid, from: bytes)
    requires Mergeable(env, d, remote)
    ensures WireTree(MergeOf(env, d, remote, from).tree)
  {
    hide CommitOf, TreeOf, MergeConflicts, SanitizeLabel, CopyName, WirePath;
    var tree := LoadCommit(env, d, remote).value.tree;
    LoadedTree(env.H, tree, d.trees[tree]);
    HeadTreeIsWire(env, d);
    CopyNameFits(SanitizeLabel(from));
    MergeKeepsWirePaths(HeadTree(env, d).value, TreeAt(env, d, remote), CopyName(SanitizeLabel(from)));
  }

  /** `merge_head` gives up HEADS. A commit of the old disk, a third head among them, survives the merge and a
      collection if and only if HEAD, the remote head or a registered snapshot leads to it, or one of these commits
      or the merge names it as a tree. */
  lemma HeadsAfterMerging(env: Env, d: Disk, remote: Cid, from: bytes, message: bytes, now: u64, third: Cid)
    requires Trusted(env) && StoreOk(env, d) && TextFits(message) && MergeSucceeds(env, d, remote, from)
    requires MergesCleanly(env, d, remote, from, message, now) && third in d.commits
    ensures third in Collected(env, MergedDisk(env, d, remote, from, message, now)).commits <==>
              || third in LiveCommits(env, d, MergeRoots(d, remote))
              || third in LiveTrees(env, d, MergeRoots(d, remote))
              || third == MergeTree(env, d, remote, from)
              || third == MergedDisk(env, d, remote, from, message, now).head.value
  {
    hide StoreOk, Trusted, LoadCommit, TreeWire, MergedDisk, MergeSucceeds, MergesCleanly, Closure, MergeTree,
      Collected;
    MergedRoots(env, d, remote, from, message, now);
    var d' := MergedDisk(env, d, remote, from, message, now);
    var m := d'.head.value;
    MergedDiskOk(env, d, remote, from, message, now);
    TopOfGraph(env, d, d', m);
    ClosureOfTop(GraphOf(env, d), m, MergeParents(d, remote), set h | h in d.registry);
    var below := MergeRoots(d, remote);
    assert (set h | h in d.registry) + (set p | p in MergeParents(d, remote)) == below;
    assert Roots(d') == (set h | h in d.registry) + {m};
    assert LiveCommits(env, d', Roots(d')) == {m} + LiveCommits(env, d, below);
    LiveTreesOfTop(env, d, d', m, below);
    CollectedLeaves(env, d', third);
  }

  lemma MergedRoots(env: Env, d: Disk, remote: Cid, from: bytes, message: bytes, now: u64)
    requires MergeSucceeds(env, d, remote, from) && TextFits(message)
    ensures var d' := MergedDisk(env, d, remote, from, message, now);
            d'.head.Some? && Roots(d') == (set h | h in d.registry) + {d'.head.value}
  {
    hide TreeWire, CommitWire, MakeCommit, MergeConflicts, Encodable, LoadCommit, LoadTree;
  }

  /** A commit more: the graph has one node more. */
  lemma TopOfGraph(env: Env, d: Disk, d': Disk, m: Cid)
    requires Extends(d, d') && d'.commits.Keys == d.commits.Keys + {m} && LoadCommit(env, d', m).Ok?
    ensures var parents := LoadCommit(env, d', m).value.parents;
            GraphOf(env, d') == GraphOf(env, d)[m := parents]
                && (m in GraphOf(env, d) ==> GraphOf(env, d)[m] == parents)
    ensures forall c :: c in d.commits ==> LoadCommit(env, d', c) == LoadCommit(env, d, c)
  {
    hide CommitOf;
  }

  lemma LiveTreesOfTop(env: Env, d: Disk, d': Disk, m: Cid, below: set<Cid>)
    requires Extends(d, d') && d'.commits.Keys == d.commits.Keys + {m} && LoadCommit(env, d', m).Ok?
    requires LiveCommits(env, d', Roots(d')) == {m} + LiveCommits(env, d, below)
    ensures LiveTrees(env, d', Roots(d')) == {LoadCommit(env, d', m).value.tree} + LiveTrees(env, d, below)
  {
    hide LoadCommit, Reachable, Roots;
    TopOfGraph(env, d, d', m);
    assert forall c :: c in LiveCommits(env, d, below) ==> TreeName(env, d', c) == TreeName(env, d, c);
    assert TreeName(env, d', m) == {LoadCommit(env, d', m).value.tree};
  }

  // ---------------------------------------------------------------------------------------------
  // What a merge restores
  // ---------------------------------------------------------------------------------------------

  /** What a merge makes of the files `last` of the newest version: whole if the remote's chunks are here; if the
      remote head can be restored, so can the merge; and without clash it has every file of both sides. */
  ghost predicate MergedAs(env: Env, d: Disk, remote: Cid, from: bytes, last: Files, v: Version)
    requires Mergeable(env, d, remote)
  {
    && (HasChunks(d.chunks, TreeAt(env, d, remote)) ==> v.whole)
    && (Restore(env, d, remote).Some? ==>
          && v.whole && v.files.Some?
          && (NoClash(HeadTree(env, d).value, TreeAt(env, d, remote), CopyName(SanitizeLabel(from))) ==>
                MergedFiles(HeadTree(env, d).value, TreeAt(env, d, remote), CopyName(SanitizeLabel(from)),
                  last, Restore(env, d, remote).value, v.files.value)))
  }

  lemma MergeIsAs(env: Env, d: Disk, vs: seq<Version>, remote: Cid, from: bytes, v: Version)
    requires Represents(env, d, vs) && LastFiles(vs).Some? && Mergeable(env, d, remote)
    requires var t := MergeOf(env, d, remote, from).tree;
             HasChunks(d.chunks, t) ==> v == Version(v.commit, true, RestoreTree(env, d.chunks, t))
    ensures MergedAs(env, d, remote, from, LastFiles(vs).value, v)
  {
    hide CommitOf, TreeOf, RestoreTree, MergeConflicts, HasChunks, MergedFiles, NoClash, SanitizeLabel, CopyName,
      Represents, WireTree;
    var tree := LoadCommit(env, d, remote).value.tree;
    var ours, theirs, name := HeadTree(env, d).value, TreeAt(env, d, remote), CopyName(SanitizeLabel(from));
    HeadFiles(env, d, vs);
    LoadedTree(env.H, tree, d.trees[tree]);
    HeadTreeIsWire(env, d);
    CopyNameFits(SanitizeLabel(from));
    if RestoreTree(env, d.chunks, theirs).Some? {
      RestoredHasChunks(env, d.chunks, theirs);
      MergeRestores(env, d.chunks, ours, theirs, name);
      if NoClash(ours, theirs, name) { MergeRestoresBoth(env, d.chunks, ours, theirs, name); }
    }
    if HasChunks(d.chunks, theirs) { MergeHasChunks(d.chunks, ours, theirs, name); }
  }
}
