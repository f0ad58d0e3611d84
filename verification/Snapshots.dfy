/** What a snapshot does to a disk. */
module Snapshots {
  import opened Bytes
  import opened Trees
  import opened TreeCodec
  import opened Frames
  import opened Commits
  import opened Disks
  import opened Versions
  import opened Adding
  import opened Registry

  /** A snapshot needs HEAD to load, if there is one. */
  predicate SnapSucceeds(env: Env, d: Disk) {
    d.head.None? || LoadCommit(env, d, d.head.value).Ok?
  }

  lemma EmptyIsEncodable()
    ensures WireTree(map[]) && Encodable(map[])
  {
  }

  /** The tree a snapshot labels: HEAD's, or the empty one. */
  function LabelTree(env: Env, d: Disk): Cid
    requires SnapSucceeds(env, d)
  {
    EmptyIsEncodable();
    if d.head.None? then env.H(TreeWire(map[])) else LoadCommit(env, d, d.head.value).value.tree
  }

  /** Without a HEAD the empty tree is saved first. */
  function Labelled(env: Env, d: Disk): Disk {
    EmptyIsEncodable();
    if d.head.None? then TreeSaved(env, d, map[]) else d
  }

  function SnapCommit(env: Env, d: Disk, message: bytes, now: u64): (c: Commit)
    requires SnapSucceeds(env, d) && TextFits(message)
    ensures CommitFits(c)
  {
    MadeCommitFits(env, LabelTree(env, d), HeadList(d), message, now);
    MakeCommit(env, LabelTree(env, d), HeadList(d), message, now)
  }

  /** The disk after a snapshot: a commit more, registered, and the registry pruned. */
  function SnappedDisk(env: Env, d: Disk, retain: nat, message: bytes, now: u64): Disk
    requires TextFits(message)
  {
    if SnapSucceeds(env, d) then
      var d' := CommitSaved(env, Labelled(env, d), SnapCommit(env, d, message, now));
      d'.(registry := Prune(Register(d.registry, d'.head.value), retain))
    else d
  }

  lemma SnappedRegistry(env: Env, d: Disk, retain: nat, message: bytes, now: u64)
    requires TextFits(message) && SnapSucceeds(env, d)
    ensures var d' := SnappedDisk(env, d, retain, message, now);
            d'.head.Some? && d'.registry == Prune(Register(d.registry, d'.head.value), retain)
  {
    hide Prune, Register, SnapSucceeds, SnapCommit, TreeWire, CommitWire, CommitFits, Encodable;
  }

  /** The snapshot writes no object in place of a different one. */
  predicate SnapsCleanly(env: Env, d: Disk, message: bytes, now: u64)
    requires TextFits(message)
  {
    EmptyIsEncodable();
    SnapSucceeds(env, d) ==>
      && (d.head.None? ==> !Clobbers(env.H, d.trees, TreeWire(map[])))
      && !Clobbers(env.H, d.commits, CommitWire(env.H, SnapCommit(env, d, message, now)))
  }

  /** A snapshot that writes cleanly adds objects and takes none away. */
  lemma SnapsOnlyAdd(env: Env, d: Disk, retain: nat, message: bytes, now: u64)
    requires TextFits(message) && SnapsCleanly(env, d, message, now)
    ensures Extends(d, SnappedDisk(env, d, retain, message, now))
  {
    hide SnapSucceeds, SnapCommit, TreeWire, CommitWire, CommitFits, Encodable, Prune, Register;
  }
}
