/** Whole runs of a vault: any sequence of operations behaves like a plain list of versions. */
module Runs {
  import opened Bytes
  import opened Trees
  import opened Disks
  import opened Versions
  import opened Adding
  import opened Merging
  import opened Snapshots
  import opened Registry
  import opened Gc
  import opened Vaults

  datatype Op =
    | Add(base: bytes, src: Source, message: bytes, now: u64)
    | Snap(message: bytes, now: u64)
    | Merge(remote: Cid, from: bytes, message: bytes, now: u64)
    | TakeChunk(h: Cid, data: bytes)
    | TakeTree(h: Cid, data: bytes)
    | TakeCommit(h: Cid, data: bytes)
    | Record(c: Cid)
    | Diverge(c: Cid)
    | PruneTo(keep: nat)
    | Collect

  predicate OpFits(op: Op) {
    match op
    case Add(base, src, message, _) => ValidUtf8(base) && SourceFits(src) && TextFits(message)
    case Snap(message, _) => TextFits(message)
    case Merge(_, _, message, _) => TextFits(message)
    case _ => true
  }

  // ---------------------------------------------------------------------------------------------
  // The plain list
  // ---------------------------------------------------------------------------------------------

  /** Which operations succeed is decided by the disk they meet. */
  ghost predicate Succeeds(env: Env, d: Disk, op: Op)
    requires OpFits(op)
  {
    match op
    case Add(base, src, _, _) => AddSucceeds(env, d, base, src)
    case Snap(_, _) => SnapSucceeds(env, d)
    case Merge(remote, from, _, _) => MergeSucceeds(env, d, remote, from)
    case TakeChunk(h, data) => env.H(data) == h && (h in d.chunks ==> d.chunks[h] == data)
    case TakeTree(h, data) => TreeOf(env.H, h, data).Ok?
    case TakeCommit(h, data) => GoodObject(env, h, data)
    case Diverge(c) => LoadCommit(env, d, c).Ok?
    case _ => true
  }

  /** An operation writes no object in place of a different one. */
  ghost predicate WritesCleanly(env: Env, d: Disk, op: Op)
    requires OpFits(op)
  {
    match op
    case Add(base, src, message, now) => AddsCleanly(env, d, base, src, message, now)
    case Snap(message, now) => SnapsCleanly(env, d, message, now)
    case Merge(remote, from, message, now) =>
      MergeSucceeds(env, d, remote, from) ==> MergesCleanly(env, d, remote, from, message, now)
    case TakeTree(h, data) => TreeOf(env.H, h, data).Ok? ==> !Clobbers(env.H, d.trees, data)
    case TakeCommit(h, data) => GoodObject(env, h, data) ==> !Clobbers(env.H, d.commits, data)
    case _ => true
  }

  /** The disk after an operation, successful or not. */
  ghost function After(env: Env, retain: nat, d: Disk, op: Op): Disk
    requires OpFits(op)
  {
    match op
    case Add(base, src, message, now) => AddedDisk(env, d, base, src, message, now)
    case Snap(message, now) => SnappedDisk(env, d, retain, message, now)
    case Merge(remote, from, message, now) =>
      if MergeSucceeds(env, d, remote, from) then MergedDisk(env, d, remote, from, message, now) else d
    case TakeChunk(h, data) => if Succeeds(env, d, op) then d.(chunks := d.chunks[h := data]) else d
    case TakeTree(h, data) => if Succeeds(env, d, op) then d.(trees := d.trees[h := data]) else d
    case TakeCommit(h, data) => if Succeeds(env, d, op) then d.(commits := d.commits[h := data]) else d
    case Record(c) => Recorded(d, c)
    case Diverge(c) =>
      if Succeeds(env, d, op) then Recorded(d, c).(head := if d.head.Some? then d.head else Some(c)) else d
    case PruneTo(keep) => d.(registry := Prune(d.registry, keep))
    case Collect => Collected(env, d)
  }

  /** Anything but a collection, if it writes cleanly, adds objects and takes none away. */
  lemma CleanOnlyAdds(env: Env, retain: nat, d: Disk, op: Op)
    requires OpFits(op) && !op.Collect? && WritesCleanly(env, d, op)
    ensures Extends(d, After(env, retain, d, op))
  {
    hide AddedDisk, AddsCleanly, SnappedDisk, SnapsCleanly, MergedDisk, MergesCleanly, MergeSucceeds, TreeOf, CommitOf;
    match op {
      case Add(base, src, message, now) => AddsOnly(env, d, base, src, message, now);
      case Snap(message, now) => SnapsOnlyAdd(env, d, retain, message, now);
      case Merge(remote, from, message, now) =>
        if MergeSucceeds(env, d, remote, from) { MergesOnlyAdd(env, d, remote, from, message, now); }
      case TakeTree(h, data) =>
        if TreeOf(env.H, h, data).Ok? { LoadedTree(env.H, h, data); }
      case TakeCommit(h, data) =>
        if GoodObject(env, h, data) { LoadedCommit(env.H, h, data); }
      case _ =>
    }
  }

  function Recorded(d: Disk, c: Cid): Disk {
    d.(heads := d.heads + (if d.head.Some? then {d.head.value} else {}) + {c})
  }

  /** The version that an operation puts behind the list. An add lays its files over those of the last version, a
      snapshot repeats them, a merge brings the remote's in. */
  ghost predicate Next(env: Env, d: Disk, vs: seq<Version>, op: Op, v: Version)
    requires OpFits(op) && Succeeds(env, d, op)
  {
    match op
    case Add(base, src, _, _) =>
      LastFiles(vs).Some? ==> v.whole && v.files == Some(Overlay(LastFiles(vs).value, Added(base, src).value))
    case Snap(_, _) => LastFiles(vs).Some? ==> v.whole && v.files == LastFiles(vs)
    case Merge(remote, from, _, _) => LastFiles(vs).Some? ==> MergedAs(env, d, remote, from, LastFiles(vs).value, v)
    case Diverge(c) => v == NewVersion(env, d, c)
    case _ => true
  }

  predicate MakesVersion(vs: seq<Version>, op: Op) {
    op.Add? || op.Snap? || op.Merge? || (op.Diverge? && vs == [])
  }

  /** One operation on the list: at most one version more, and never another change. */
  ghost predicate Follows(env: Env, d: Disk, vs: seq<Version>, op: Op, vs': seq<Version>)
    requires OpFits(op)
  {
    if Succeeds(env, d, op) && MakesVersion(vs, op)
    then |vs'| == |vs| + 1 && vs <= vs' && Next(env, d, vs, op, vs'[|vs|])
    else vs' == vs
  }

  lemma OneMore(env: Env, d: Disk, vs: seq<Version>, op: Op, v: Version)
    requires OpFits(op) && Succeeds(env, d, op) && MakesVersion(vs, op) && Next(env, d, vs, op, v)
    ensures Follows(env, d, vs, op, vs + [v])
  {
    hide Succeeds, Next;
  }

  /** The list after an operation: what has become HEAD is read from the new disk. */
  ghost function Listed(env: Env, d: Disk, d': Disk, vs: seq<Version>, op: Op): seq<Version>
    requires OpFits(op)
  {
    if !Succeeds(env, d, op) || d'.head.None? then vs
    else if op.Add? || op.Snap? || op.Merge? then vs + [NewVersion(env, d', d'.head.value)]
    else if op.Diverge? && d.head.None? then [NewVersion(env, d', d'.head.value)]
    else vs
  }

  /** One operation: the method behind it. */
  method Step(v: Vault, op: Op) returns (ok: bool)
    requires v.Valid() && OpFits(op)
    modifies v`disk, v`clash, v`versions
    ensures v.Valid()
    ensures ok <==> Succeeds(v.env, old(v.disk), op)
    ensures v.disk == After(v.env, v.retain, old(v.disk), op)
    ensures v.versions == Listed(v.env, old(v.disk), v.disk, old(v.versions), op)
    ensures v.clash.None? <==> old(v.clash).None? && WritesCleanly(v.env, old(v.disk), op)
    ensures v.clash.None? ==> Follows(v.env, old(v.disk), old(v.versions), op, v.versions)
    ensures !op.Collect? ==> Keeps(old(v.disk), v.disk) && (v.clash.None? ==> Extends(old(v.disk), v.disk))
  {
    hide StoreOk, Represents, NewVersion, Trusted, Overlay, Added, Restore, HasChunks, HeadTree, TreeOf, CommitOf,
      LoadCommit, Collected, GoodObject, CommittedAs, AddSucceeds, MergeSucceeds, SnapSucceeds, MergedDisk, AddedDisk,
          SnappedDisk, MergedAs, MergeOf, MergesCleanly, AddsCleanly, SnapsCleanly, AddedTree, LastFiles, Follows,
              NoClashIn, Mergeable;
    ghost var env, d, vs := v.env, v.disk, v.versions;
    match op {
      case Add(base, src, message, now) =>
        var r := v.AddPath(base, src, message, now);
        ok := r.Ok?;
        if ok && v.clash.None? { OneMore(env, d, vs, op, NewVersion(v.env, v.disk, r.value)); }
      case Snap(message, now) =>
        var r := v.Snapshot(message, now);
        ok := r.Ok?;
        if ok && v.clash.None? { OneMore(env, d, vs, op, NewVersion(v.env, v.disk, r.value)); }
      case Merge(remote, from, message, now) =>
        var r := v.MergeHead(remote, from, message, now);
        ok := r.Ok?;
        if ok && v.clash.None? { OneMore(env, d, vs, op, NewVersion(v.env, v.disk, r.value.0)); }
      case Diverge(c) =>
        if v.clash.None? { HeadIffVersions(v.env, v.disk, vs); }
        var r := v.SetDivergentHead(c);
        ok := r.Ok?;
        if ok && v.clash.None? && vs == [] {
          SameVersion(env, d, v.disk, c);
          OneMore(env, d, vs, op, NewVersion(v.env, v.disk, c));
          assert vs + [NewVersion(v.env, v.disk, c)] == [NewVersion(v.env, v.disk, c)];
        }
      case _ => ok := StepObjects(v, op);
    }
    if !(ok && MakesVersion(vs, op)) && v.clash.None? { NothingMore(env, d, vs, op); }
  }

  /** The operations that make no version. */
  method StepObjects(v: Vault, op: Op) returns (ok: bool)
    requires v.Valid() && OpFits(op) && !(op.Add? || op.Snap? || op.Merge? || op.Diverge?)
    modifies v`disk, v`clash
    ensures v.Valid()
    ensures ok <==> Succeeds(v.env, old(v.disk), op)
    ensures v.disk == After(v.env, v.retain, old(v.disk), op)
    ensures v.clash.None? <==> old(v.clash).None? && WritesCleanly(v.env, old(v.disk), op)
    ensures !op.Collect? ==> Keeps(old(v.disk), v.disk) && (v.clash.None? ==> Extends(old(v.disk), v.disk))
  {
    hide StoreOk, Represents, Trusted, TreeOf, CommitOf, Collected, GoodObject, IsClash, OpFits, Extends, Keeps,
      Clobbers;
    ghost var d := v.disk;
    match op {
      case TakeChunk(h, data) =>
        var r := v.PutChunk(h, data);
        ok := r.Ok?;
        ExtendsGrows(d, v.disk);
      case TakeTree(h, data) =>
        var r := v.ImportTree(h, data);
        ok := r.Ok?;
      case TakeCommit(h, data) =>
        var r := v.ImportCommit(h, data);
        ok := r.Ok?;
      case Record(c) =>
        v.RecordHead(c);
        SameKept(d, v.disk);
        ok := true;
      case PruneTo(keep) =>
        var _ := v.PruneRegistry(keep);
        SameKept(d, v.disk);
        ok := true;
      case Collect =>
        var r := v.GcAll();
        ok := r.Ok?;
    }
  }

  lemma NothingMore(env: Env, d: Disk, vs: seq<Version>, op: Op)
    requires OpFits(op) && !(Succeeds(env, d, op) && MakesVersion(vs, op))
    ensures Follows(env, d, vs, op, vs)
  {
    hide Succeeds;
  }

  lemma SameVersion(env: Env, d: Disk, d': Disk, c: Cid)
    requires d'.chunks == d.chunks && d'.trees == d.trees && d'.commits == d.commits
    ensures NewVersion(env, d', c) == NewVersion(env, d, c)
  {
    hide CommitOf, TreeOf, RestoreTree;
  }

  lemma HeadIffVersions(env: Env, d: Disk, vs: seq<Version>)
    requires Represents(env, d, vs)
    ensures d.head.None? <==> vs == []
  {
    hide AllKept, Chained;
  }

  // ---------------------------------------------------------------------------------------------
  // Runs
  // ---------------------------------------------------------------------------------------------

  predicate AllFit(ops: seq<Op>) { forall i :: 0 <= i < |ops| ==> OpFits(ops[i]) }

  /** The disk after the first `n` operations on an empty vault. */
  ghost function DiskAt(env: Env, retain: nat, ops: seq<Op>, n: nat): Disk
    requires AllFit(ops) && n <= |ops|
  {
    if n == 0 then EMPTY else After(env, retain, DiskAt(env, retain, ops, n - 1), ops[n - 1])
  }

  /** The versions by then. */
  ghost function ListAt(env: Env, retain: nat, ops: seq<Op>, n: nat): seq<Version>
    requires AllFit(ops) && n <= |ops|
  {
    if n == 0 then []
    else
      Listed(env, DiskAt(env, retain, ops, n - 1), DiskAt(env, retain, ops, n), ListAt(env, retain, ops, n - 1),
          ops[n - 1])
  }

  /** By then no write has put an object in place of a different one: no two objects of the run have met under one
      hash. */
  ghost predicate Clean(env: Env, retain: nat, ops: seq<Op>, n: nat)
    requires AllFit(ops) && n <= |ops|
  {
    forall i :: 0 <= i < n ==> WritesCleanly(env, DiskAt(env, retain, ops, i), ops[i])
  }

  /** The versions by then have come about as on a plain list, and are what the disk holds. */
  ghost predicate Traced(env: Env, retain: nat, ops: seq<Op>, n: nat)
    requires AllFit(ops) && n <= |ops|
  {
    forall i :: 0 <= i < n ==>
      Moves(env, DiskAt(env, retain, ops, i), ListAt(env, retain, ops, i), ops[i],
        After(env, retain, DiskAt(env, retain, ops, i), ops[i]), ListAt(env, retain, ops, i + 1))
  }

  /** One step of a run: the list follows and is what the new disk holds, and only a collection takes objects away. */
  ghost predicate Moves(env: Env, d: Disk, vs: seq<Version>, op: Op, d': Disk, vs': seq<Version>) {
    && OpFits(op) && Follows(env, d, vs, op, vs')
    && StoreOk(env, d') && Represents(env, d', vs')
    && (if op.Collect? then d' == Collected(env, d) else Extends(d, d'))
  }

  /** The remote heads that were merged, and a head adopted by an empty vault, could be restored. */
  ghost predicate GoodSources(env: Env, retain: nat, ops: seq<Op>)
    requires AllFit(ops)
  {
    forall i :: 0 <= i < |ops| ==> GoodSource(env, DiskAt(env, retain, ops, i), ops[i])
  }

  ghost predicate GoodSource(env: Env, d: Disk, op: Op)
    requires OpFits(op)
  {
    Succeeds(env, d, op) ==>
      && (op.Merge? ==> Restore(env, d, op.remote).Some?)
      && (op.Diverge? ==> Restore(env, d, op.c).Some?)
  }

  ghost predicate AllRestore(vs: seq<Version>) {
    forall i :: 0 <= i < |vs| ==> vs[i].whole && vs[i].files.Some?
  }

  lemma FollowsRestores(env: Env, d: Disk, vs: seq<Version>, op: Op, vs': seq<Version>)
    requires OpFits(op) && Follows(env, d, vs, op, vs') && AllRestore(vs) && GoodSource(env, d, op)
    ensures AllRestore(vs')
  {
    hide AddSucceeds, MergeSucceeds, TreeOf, CommitOf, RestoreTree, GoodObject, Overlay, Added, NoClash, HasChunks;
    if Succeeds(env, d, op) && MakesVersion(vs, op) {
      if op.Diverge? { RestorableIsWhole(env, d, op.c); }
      assert vs'[|vs|].whole && vs'[|vs|].files.Some?;
      forall i | 0 <= i < |vs'| ensures vs'[i].whole && vs'[i].files.Some? {
        if i < |vs| { assert vs'[i] == vs[i]; }
      }
    }
  }

  lemma RestorableIsWhole(env: Env, d: Disk, c: Cid)
    requires Restore(env, d, c).Some?
    ensures Complete(env, d, c)
  {
    hide CommitOf, TreeOf, RestoreTree, HasChunks;
    RestoredHasChunks(env, d.chunks, TreeAt(env, d, c));
  }

  /** A run of adds, snapshots and merges of restorable heads has only versions that are whole and restore. */
  lemma {:induction false} GoodRunsRestore(env: Env, retain: nat, ops: seq<Op>, n: nat)
    requires AllFit(ops) && n <= |ops| && Traced(env, retain, ops, n) && GoodSources(env, retain, ops)
    ensures AllRestore(ListAt(env, retain, ops, n))
    decreases n
  {
    hide Succeeds, Follows, Restore, OpFits, AllRestore, StoreOk, Represents, Collected, Extends, Listed, GoodSource,
      After, DiskAt;
    if n == 0 {
      NothingRestores();
    } else {
      GoodRunsRestore(env, retain, ops, n - 1);
      FollowsRestores(env, DiskAt(env, retain, ops, n - 1), ListAt(env, retain, ops, n - 1), ops[n - 1],
          ListAt(env, retain, ops, n));
    }
  }

  lemma NothingRestores()
    ensures AllRestore([])
  {
  }

  /** Any run from an empty vault. Each operation succeeds and changes the disk as `Succeeds` and `After` say. Up to
      the first write that would put an object in place of a different one, each operation does to the list of versions
      what `Follows` says. If there was no such write, every version is an ancestor of HEAD, and one that was whole when
      it became HEAD is complete and restores to exactly the files it had then; and if the heads merged could be
      restored, that is every version. */
  method Run(env: Env, retain: nat, ops: seq<Op>) returns (v: Vault, done: seq<bool>)
    requires Trusted(env) && AllFit(ops)
    ensures fresh(v) && v.env == env && v.Valid() && |done| == |ops|
    ensures forall i :: 0 <= i < |ops| ==> (done[i] <==> Succeeds(env, DiskAt(env, retain, ops, i), ops[i]))
    ensures v.disk == DiskAt(env, retain, ops, |ops|) && v.versions == ListAt(env, retain, ops, |ops|)
    ensures v.clash.None? <==> Clean(env, retain, ops, |ops|)
    ensures forall n :: 0 <= n <= |ops| && Clean(env, retain, ops, n) ==> Traced(env, retain, ops, n)
    ensures Clean(env, retain, ops, |ops|) ==> forall i :: 0 <= i < |v.versions| ==> Stands(env, v.disk, v.versions[i])
    ensures Clean(env, retain, ops, |ops|) && GoodSources(env, retain, ops) ==> AllRestore(v.versions)
  {
    hide StoreOk, Represents, Trusted, OpFits, Stands, Traced, Clean, GoodSources, Follows, Succeeds, WritesCleanly,
      AllRestore, Collected, Extends, Keeps, After, Listed;
    v := new Vault(env, retain);
    done := [];
    NothingTraced(env, retain, ops);
    for i := 0 to |ops|
      invariant fresh(v) && v.env == env && v.Valid() && v.retain == retain && |done| == i
      invariant forall j :: 0 <= j < i ==> (done[j] <==> Succeeds(env, DiskAt(env, retain, ops, j), ops[j]))
      invariant v.disk == DiskAt(env, retain, ops, i) && v.versions == ListAt(env, retain, ops, i)
      invariant v.clash.None? <==> Clean(env, retain, ops, i)
      invariant forall n :: 0 <= n <= i && Clean(env, retain, ops, n) ==> Traced(env, retain, ops, n)
    {
      var ok := Step(v, ops[i]);
      CleanStep(env, retain, ops, i);
      if v.clash.None? {
        AfterCollect(env, retain, DiskAt(env, retain, ops, i), ops[i]);
        TracedStep(env, retain, ops, i);
      }
      done := done + [ok];
    }
    if v.clash.None? {
      AllStand(env, v.disk, v.versions);
      if GoodSources(env, retain, ops) { GoodRunsRestore(env, retain, ops, |ops|); }
    }
  }

  lemma NothingTraced(env: Env, retain: nat, ops: seq<Op>)
    requires AllFit(ops)
    ensures Clean(env, retain, ops, 0) && Traced(env, retain, ops, 0)
  {
  }

  lemma AfterCollect(env: Env, retain: nat, d: Disk, op: Op)
    requires OpFits(op)
    ensures op.Collect? ==> After(env, retain, d, op) == Collected(env, d)
  {
    hide Collected, AddedDisk, SnappedDisk, MergedDisk, MergeSucceeds, Succeeds, OpFits, Recorded, Prune;
  }

  lemma CleanStep(env: Env, retain: nat, ops: seq<Op>, n: nat)
    requires AllFit(ops) && n < |ops|
    ensures Clean(env, retain, ops, n + 1) <==>
              Clean(env, retain, ops, n) && WritesCleanly(env, DiskAt(env, retain, ops, n), ops[n])
  {
    hide WritesCleanly, OpFits, DiskAt;
  }

  lemma TracedStep(env: Env, retain: nat, ops: seq<Op>, n: nat)
    requires AllFit(ops) && n < |ops| && Traced(env, retain, ops, n)
    requires Moves(env, DiskAt(env, retain, ops, n), ListAt(env, retain, ops, n), ops[n],
               DiskAt(env, retain, ops, n + 1), ListAt(env, retain, ops, n + 1))
    ensures Traced(env, retain, ops, n + 1)
  {
    hide Moves, OpFits, After;
  }

  /** An ancestor of HEAD that is as complete and restores as it did when it was made. */
  ghost predicate Stands(env: Env, d: Disk, v: Version) {
    && d.head.Some? && v.commit in LiveCommits(env, d, {d.head.value})
    && (v.whole ==> Complete(env, d, v.commit) && Restore(env, d, v.commit) == v.files)
  }

  lemma AllStand(env: Env, d: Disk, vs: seq<Version>)
    requires Represents(env, d, vs)
    ensures forall i :: 0 <= i < |vs| ==> Stands(env, d, vs[i])
  {
    hide LoadCommit, LiveCommits, Restore, Complete, Chained;
    forall i | 0 <= i < |vs| ensures Stands(env, d, vs[i]) {
      assert Kept(env, d, vs[i]);
      VersionsAreLive(env, d, vs, i, {d.head.value});
    }
  }
}
