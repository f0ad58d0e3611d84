/** Mark and sweep of src/vault.rs: what the mark loops compute, what the sweeps leave, and that sweeping
    again removes nothing. */
module Gc {
  import opened Bytes
  import opened Trees
  import opened TreeCodec
  import opened Frames
  import opened Commits
  import opened Disks
  import opened Versions
  import opened Reach

  // ---------------------------------------------------------------------------------------------
  // What is live
  // ---------------------------------------------------------------------------------------------

  /** The commits on disk with their parents; one that does not load has none. */
  function GraphOf(env: Env, d: Disk): Graph {
    map h | h in d.commits :: match LoadCommit(env, d, h) case Ok(c) => c.parents case Err(_) => []
  }

  /** `protected_commit_roots` */
  function Roots(d: Disk): set<Cid> {
    (if d.head.Some? then {d.head.value} else {}) + d.heads + (set h | h in d.registry)
  }

  ghost function LiveCommits(env: Env, d: Disk, roots: set<Cid>): set<Cid> {
    Closure(GraphOf(env, d), roots)
  }

  function TreeName(env: Env, d: Disk, c: Cid): set<Cid> {
    match LoadCommit(env, d, c) case Ok(commit) => {commit.tree} case Err(_) => {}
  }

  /** The chunks of a commit's tree, if the tree is here. */
  function ChunkNames(env: Env, d: Disk, c: Cid): set<Cid> {
    if Loads(env, d, c) then ChunksOf(TreeAt(env, d, c)) else {}
  }

  ghost function LiveTrees(env: Env, d: Disk, roots: set<Cid>): set<Cid> {
    set c, t | c in LiveCommits(env, d, roots) && t in TreeName(env, d, c) :: t
  }

  ghost function LiveChunks(env: Env, d: Disk, roots: set<Cid>): set<Cid> {
    set c, h | c in LiveCommits(env, d, roots) && h in ChunkNames(env, d, c) :: h
  }

  /** The live chunks are the chunks of the live trees that are here: the two mark loops agree. */
  lemma LiveChunksOfLiveTrees(env: Env, d: Disk, roots: set<Cid>, h: Cid)
    ensures h in LiveChunks(env, d, roots) <==>
              exists t :: t in LiveTrees(env, d, roots) && LoadTree(env, d, t).Ok?
                  && h in ChunksOf(LoadTree(env, d, t).value)
  {
    hide LiveCommits, CommitOf, TreeOf, ChunksOf;
    if h in LiveChunks(env, d, roots) {
      var c :| c in LiveCommits(env, d, roots) && h in ChunkNames(env, d, c);
      assert LoadCommit(env, d, c).value.tree in TreeName(env, d, c);
      assert LoadCommit(env, d, c).value.tree in LiveTrees(env, d, roots);
    }
    if t :| t in LiveTrees(env, d, roots) && LoadTree(env, d, t).Ok? && h in ChunksOf(LoadTree(env, d, t).value) {
      var c :| c in LiveCommits(env, d, roots) && t in TreeName(env, d, c);
      assert h in ChunkNames(env, d, c);
    }
  }

  // ---------------------------------------------------------------------------------------------
  // The mark loops
  // ---------------------------------------------------------------------------------------------

  /** `live_chunk_hashes_from_roots` */
  method MarkChunks(env: Env, d: Disk, roots: seq<Cid>) returns (r: Result<set<Cid>, Error>)
    ensures StoreOk(env, d) ==> r.Ok?
    ensures r.Ok? ==> r.value == LiveChunks(env, d, set h | h in roots)
  {
    hide CommitOf, TreeOf, Closure, Nodes, SignatureOk, GoodCommit, ChunksOf;
    ghost var g, rs := GraphOf(env, d), set h | h in roots;
    var live: set<Cid>, queue, seen: set<Cid> := {}, roots, {};
    MarkingStarts(g, rs, queue);
    while queue != []
      invariant Marking(g, rs, seen, queue)
      invariant forall h :: h in live <==> exists c :: c in seen && c in g && h in ChunkNames(env, d, c)
      decreases Nodes(g, rs) - seen, |queue|
    {
      var h, rest := queue[|queue| - 1], queue[..|queue| - 1];
      assert queue == rest + [h];
      if h in seen {
        MarkingSkips(g, rs, seen, queue, rest, h);
        queue := rest;
      } else if h !in d.commits {
        MarkingTakes(g, rs, seen, queue, rest, h);
        queue, seen := rest, seen + {h};
      } else {
        var c := LoadCommit(env, d, h);
        if c.Err? { return Err(c.error); }
        MarkingTakes(g, rs, seen, queue, rest + c.value.parents, h);
        queue, seen := rest + c.value.parents, seen + {h};
        if c.value.tree in d.trees {
          var t := LoadTree(env, d, c.value.tree);
          if t.Err? { return Err(t.error); }
          live := live + ChunksOf(t.value);
        }
      }
    }
    MarkingEnds(g, rs, seen);
    assert forall h :: h in live <==> h in LiveChunks(env, d, rs);
    r := Ok(live);
  }

  /** `live_object_hashes` */
  method MarkObjects(env: Env, d: Disk, roots: seq<Cid>) returns (r: Result<set<Cid>, Error>)
    ensures StoreOk(env, d) ==> r.Ok?
    ensures r.Ok? ==> var rs := set h | h in roots; r.value == LiveCommits(env, d, rs) + LiveTrees(env, d, rs)
  {
    hide CommitOf, Closure, Nodes, SignatureOk, GoodCommit;
    ghost var g, rs := GraphOf(env, d), set h | h in roots;
    var live: set<Cid>, queue, seen: set<Cid> := {}, roots, {};
    MarkingStarts(g, rs, queue);
    while queue != []
      invariant Marking(g, rs, seen, queue)
      invariant forall h :: h in live <==>
                (h in seen && h in g) || exists c :: c in seen && c in g && h in TreeName(env, d, c)
      decreases Nodes(g, rs) - seen, |queue|
    {
      var h, rest := queue[|queue| - 1], queue[..|queue| - 1];
      assert queue == rest + [h];
      if h in seen {
        MarkingSkips(g, rs, seen, queue, rest, h);
        queue := rest;
      } else if h !in d.commits {
        MarkingTakes(g, rs, seen, queue, rest, h);
        queue, seen := rest, seen + {h};
      } else {
        var c := LoadCommit(env, d, h);
        if c.Err? { return Err(c.error); }
        MarkingTakes(g, rs, seen, queue, rest + c.value.parents, h);
        queue, seen := rest + c.value.parents, seen + {h};
        live := live + {h, c.value.tree};
      }
    }
    MarkingEnds(g, rs, seen);
    assert forall h :: h in live <==> h in LiveCommits(env, d, rs) + LiveTrees(env, d, rs);
    r := Ok(live);
  }

  // ---------------------------------------------------------------------------------------------
  // The sweep
  // ---------------------------------------------------------------------------------------------

  function Restrict(m: Objects, keep: set<Cid>): Objects {
    map h | h in m && h in keep :: m[h]
  }

  ghost function LiveObjects(env: Env, d: Disk): set<Cid> {
    LiveCommits(env, d, Roots(d)) + LiveTrees(env, d, Roots(d))
  }

  /** The disk after `gc_all`. */
  ghost function Collected(env: Env, d: Disk): Disk {
    d.(chunks := Restrict(d.chunks, LiveChunks(env, d, Roots(d))),
       commits := Restrict(d.commits, LiveObjects(env, d)),
       trees := Restrict(d.trees, LiveObjects(env, d)))
  }

  /** A name shared by a commit and a tree would be a hash collision. */
  lemma SharedNameIsCollision(env: Env, d: Disk, h: Cid)
    requires StoreOk(env, d) && h in d.commits && h in d.trees
    ensures d.commits[h] != d.trees[h] && env.H(d.commits[h]) == env.H(d.trees[h])
  {
    hide DecodeCommit, DecodeTree, TreeWire, CommitWire, SignatureOk, GoodCommit, WireTree, Encodable;
    assert GoodObject(env, h, d.commits[h]) && TreeOf(env.H, h, d.trees[h]).Ok?;
    UnframeExact(DOMAIN_COMMIT, d.commits[h]);
    UnframeExact(DOMAIN_TREE, d.trees[h]);
    DomainsDiffer();
    FramesDiffer(DOMAIN_COMMIT, DOMAIN_TREE, Unframe(DOMAIN_COMMIT, d.commits[h]).value,
        Unframe(DOMAIN_TREE, d.trees[h]).value);
  }

  /** `d'` is `d` in the middle of a sweep, or after it: objects are gone, none of them live. */
  ghost predicate Swept(env: Env, d: Disk, d': Disk) {
    && d'.head == d.head && d'.heads == d.heads && d'.registry == d.registry
    && Between(d.chunks, d'.chunks, LiveChunks(env, d, Roots(d)))
    && Between(d.commits, d'.commits, LiveObjects(env, d))
    && Between(d.trees, d'.trees, LiveObjects(env, d))
  }

  ghost predicate Between(m: Objects, m': Objects, keep: set<Cid>) {
    && (forall h :: h in m' ==> h in m && m'[h] == m[h])
    && (forall h :: h in m && h in keep ==> h in m')
  }

  lemma CollectedIsSwept(env: Env, d: Disk)
    ensures Swept(env, d, Collected(env, d))
  {
    hide LiveObjects, LiveChunks;
  }

  /** What a live commit needs is left in place, at any point of a sweep. */
  lemma LiveSame(env: Env, d: Disk, d': Disk, c: Cid)
    requires c in LiveCommits(env, d, Roots(d)) && Swept(env, d, d')
    ensures c in d'.commits && LoadCommit(env, d', c) == LoadCommit(env, d, c)
    ensures TreeName(env, d', c) == TreeName(env, d, c)
    ensures Loads(env, d', c) == Loads(env, d, c)
    ensures ChunkNames(env, d', c) == ChunkNames(env, d, c)
    ensures Loads(env, d, c) ==> SameAt(d, d', c, LoadCommit(env, d, c).value.tree, TreeAt(env, d, c))
  {
    hide CommitOf, TreeOf, Reachable, Roots;
    var commit := LoadCommit(env, d, c);
    assert c in LiveObjects(env, d);
    if commit.Ok? {
      assert commit.value.tree in TreeName(env, d, c);
      assert commit.value.tree in LiveTrees(env, d, Roots(d));
      assert commit.value.tree in LiveObjects(env, d);
      if Loads(env, d, c) {
        var t := TreeAt(env, d, c);
        forall k, h | k in t && t[k].File? && h in t[k].chunks && h in d.chunks
          ensures h in d'.chunks && d'.chunks[h] == d.chunks[h]
        {
          assert h in ChunkNames(env, d, c);
          assert h in LiveChunks(env, d, Roots(d));
        }
      }
    }
  }

  /** What is left, on any disk: a commit on disk stays if it is reachable or named as a tree by a reachable commit,
      a tree if it is named as one or is reachable as a commit, a chunk if it belongs to a live tree. */
  lemma CollectedLeaves(env: Env, d: Disk, h: Cid)
    ensures h in Collected(env, d).commits <==> h in d.commits && h in LiveObjects(env, d)
    ensures h in Collected(env, d).trees <==> h in d.trees && h in LiveObjects(env, d)
    ensures h in Collected(env, d).chunks <==> h in d.chunks && h in LiveChunks(env, d, Roots(d))
  {
    hide LiveCommits, LiveTrees, LiveChunks, Roots;
  }

  /** A way from HEAD, HEADS or the registry along parents through commits on disk. */
  ghost predicate Way(env: Env, d: Disk, p: seq<Cid>) {
    && p != [] && (d.head == Some(p[0]) || p[0] in d.heads || p[0] in d.registry)
    && (forall i :: 0 <= i < |p| ==> p[i] in d.commits)
    && (forall i :: 0 < i < |p| ==> IsParent(env, d, p[i], p[i - 1]))
  }

  ghost predicate Led(env: Env, d: Disk, c: Cid) {
    exists p :: Way(env, d, p) && p[|p| - 1] == c
  }

  /** What is live is what a way leads to. */
  lemma LiveIsLed(env: Env, d: Disk, c: Cid)
    ensures c in LiveCommits(env, d, Roots(d)) <==> Led(env, d, c)
  {
    hide CommitOf;
    forall p ensures Way(env, d, p) <==> Walk(GraphOf(env, d), Roots(d), p) { WayIsWalk(env, d, p); }
  }

  lemma WayIsWalk(env: Env, d: Disk, p: seq<Cid>)
    ensures Way(env, d, p) <==> Walk(GraphOf(env, d), Roots(d), p)
  {
    hide LoadCommit;
    var g := GraphOf(env, d);
    forall i | 0 < i < |p| && p[i - 1] in d.commits
      ensures p[i] in g[p[i - 1]] <==> IsParent(env, d, p[i], p[i - 1])
    {
    }
  }

  /** The collected disk object by object: a commit or tree stays if a way leads to it or to a commit that names it as
      its tree, a chunk if a way leads to a commit whose tree has a file with it. */
  lemma CollectedIs(env: Env, d: Disk, h: Cid)
    ensures h in Collected(env, d).commits <==>
              h in d.commits && (Led(env, d, h) || exists c ::
                Led(env, d, c) && LoadCommit(env, d, c).Ok? && LoadCommit(env, d, c).value.tree == h)
    ensures h in Collected(env, d).trees <==>
              h in d.trees && (Led(env, d, h) || exists c ::
                Led(env, d, c) && LoadCommit(env, d, c).Ok? && LoadCommit(env, d, c).value.tree == h)
    ensures h in Collected(env, d).chunks <==>
              h in d.chunks && exists c, k ::
                Led(env, d, c) && Loads(env, d, c) && k in TreeAt(env, d, c) && TreeAt(env, d, c)[k].File?
                  && h in TreeAt(env, d, c)[k].chunks
  {
    hide LiveCommits, Roots, Led, CommitOf, TreeOf;
    forall c ensures c in LiveCommits(env, d, Roots(d)) <==> Led(env, d, c) { LiveIsLed(env, d, c); }
    CollectedLeaves(env, d, h);
    assert h in LiveTrees(env, d, Roots(d)) <==> exists c :: Led(env, d, c) && h in TreeName(env, d, c);
    assert h in LiveChunks(env, d, Roots(d)) <==> exists c :: Led(env, d, c) && h in ChunkNames(env, d, c);
  }

  /** GC is exact for commits if and only if every commit on disk that a live commit names as its tree is live
      itself, and for trees if and only if every tree on disk that shares a live commit's name is a live tree. The
      chunks are always exact. */
  lemma CollectedExact(env: Env, d: Disk)
    ensures Collected(env, d).commits.Keys == LiveCommits(env, d, Roots(d)) <==>
              LiveTrees(env, d, Roots(d)) * d.commits.Keys <= LiveCommits(env, d, Roots(d))
    ensures Collected(env, d).trees.Keys == LiveTrees(env, d, Roots(d)) * d.trees.Keys <==>
              LiveCommits(env, d, Roots(d)) * d.trees.Keys <= LiveTrees(env, d, Roots(d))
    ensures Collected(env, d).chunks.Keys == LiveChunks(env, d, Roots(d)) * d.chunks.Keys
  {
    hide Closure, LiveTrees, LiveChunks, Roots, Restrict;
    var d', commits, trees := Collected(env, d), LiveCommits(env, d, Roots(d)), LiveTrees(env, d, Roots(d));
    LiveIsHere(env, d);
    assert forall h :: h in d'.commits <==> h in d.commits && (h in commits || h in trees) by {
      forall h { CollectedLeaves(env, d, h); }
    }
    assert forall h :: h in d'.trees <==> h in d.trees && (h in commits || h in trees) by {
      forall h { CollectedLeaves(env, d, h); }
    }
    assert forall h :: h in d'.chunks <==> h in d.chunks && h in LiveChunks(env, d, Roots(d)) by {
      forall h { CollectedLeaves(env, d, h); }
    }
  }

  lemma LiveIsHere(env: Env, d: Disk)
    ensures LiveCommits(env, d, Roots(d)) <= d.commits.Keys
  {
    hide Reachable, Roots;
  }

  /** In a sound store a live tree and a commit of one name would be a hash collision, so trees are exact unless
      there is one. */
  lemma TreesExactOrClash(env: Env, d: Disk)
    requires StoreOk(env, d) && !(LiveCommits(env, d, Roots(d)) * d.trees.Keys <= LiveTrees(env, d, Roots(d)))
    ensures exists h :: h in d.commits && h in d.trees && d.commits[h] != d.trees[h]
              && env.H(d.commits[h]) == env.H(d.trees[h])
  {
    hide StoreOk, LiveCommits, LiveTrees, Roots;
    LiveIsHere(env, d);
    var h :| h in LiveCommits(env, d, Roots(d)) * d.trees.Keys && h !in LiveTrees(env, d, Roots(d));
    SharedNameIsCollision(env, d, h);
  }

  /** Everything is still reachable, and nothing else has become so. */
  lemma CollectedClosure(env: Env, d: Disk)
    ensures Roots(Collected(env, d)) == Roots(d)
    ensures LiveCommits(env, Collected(env, d), Roots(d)) == LiveCommits(env, d, Roots(d))
  {
    hide CommitOf, TreeOf, Closure;
    var d' := Collected(env, d);
    CollectedIsSwept(env, d);
    forall c | c in LiveCommits(env, d, Roots(d))
      ensures c in GraphOf(env, d') && GraphOf(env, d')[c] == GraphOf(env, d)[c]
    {
      LiveSame(env, d, d', c);
    }
    SameClosure(GraphOf(env, d), GraphOf(env, d'), Roots(d));
  }

  /** A second GC removes nothing. */
  lemma CollectedTwice(env: Env, d: Disk)
    ensures Collected(env, Collected(env, d)) == Collected(env, d)
  {
    hide CommitOf, TreeOf, Closure, ChunkNames, TreeName, Roots;
    var d', roots := Collected(env, d), Roots(d);
    CollectedClosure(env, d);
    CollectedIsSwept(env, d);
    forall c | c in LiveCommits(env, d, roots)
      ensures TreeName(env, d', c) == TreeName(env, d, c) && ChunkNames(env, d', c) == ChunkNames(env, d, c)
    {
      LiveSame(env, d, d', c);
    }
    assert LiveTrees(env, d', roots) == LiveTrees(env, d, roots);
    assert LiveChunks(env, d', roots) == LiveChunks(env, d, roots);
    RestrictTwice(d.chunks, LiveChunks(env, d, roots));
    RestrictTwice(d.trees, LiveObjects(env, d));
    RestrictTwice(d.commits, LiveObjects(env, d));
  }

  lemma RestrictTwice(m: Objects, keep: set<Cid>)
    ensures Restrict(Restrict(m, keep), keep) == Restrict(m, keep)
  {
  }

  lemma SweptStoreOk(env: Env, d: Disk, d': Disk)
    requires StoreOk(env, d) && Swept(env, d, d')
    ensures StoreOk(env, d')
  {
    hide GoodObject, TreeOf, LiveObjects, LiveChunks;
  }

  /** A reachable complete commit stays complete and restores the same. */
  lemma SweptRestore(env: Env, d: Disk, d': Disk, c: Cid)
    requires c in LiveCommits(env, d, Roots(d)) && Loads(env, d, c) && Swept(env, d, d')
    ensures Loads(env, d', c) && LoadCommit(env, d', c) == LoadCommit(env, d, c)
    ensures Complete(env, d, c) ==> Complete(env, d', c) && Restore(env, d', c) == Restore(env, d, c)
  {
    hide CommitOf, TreeOf, Swept, LiveCommits, Restore, Complete, SameAt;
    LiveSame(env, d, d', c);
    SameRestore(env, d, d', c);
  }

  // ---------------------------------------------------------------------------------------------
  // Versions survive
  // ---------------------------------------------------------------------------------------------

  /** Every version is an ancestor of HEAD, so it is live under any roots that have HEAD. */
  lemma {:induction false} VersionsAreLive(env: Env, d: Disk, vs: seq<Version>, i: nat, roots: set<Cid>)
    requires Represents(env, d, vs) && i < |vs| && d.head.value in roots
    ensures vs[i].commit in LiveCommits(env, d, roots)
    decreases |vs| - i
  {
    hide CommitOf, TreeOf, Closure, Restore, Complete;
    var g, c := GraphOf(env, d), vs[i].commit;
    assert Kept(env, d, vs[i]);
    if i == |vs| - 1 {
      RootReachable(g, roots, c);
    } else {
      VersionsAreLive(env, d, vs, i + 1, roots);
      assert IsParent(env, d, vs[i].commit, vs[i + 1].commit);
      ParentReachable(g, roots, vs[i + 1].commit, c);
    }
  }

  /** GC changes no version, even if it is interrupted. */
  lemma SweptRepresents(env: Env, d: Disk, d': Disk, vs: seq<Version>)
    requires Represents(env, d, vs) && Swept(env, d, d')
    ensures Represents(env, d', vs)
  {
    hide CommitOf, TreeOf, RestoreTree, HasChunks, LiveCommits, LiveObjects, LiveChunks, Between;
    forall i | 0 <= i < |vs|
      ensures Kept(env, d', vs[i]) && LoadCommit(env, d', vs[i].commit) == LoadCommit(env, d, vs[i].commit)
    {
      assert Kept(env, d, vs[i]);
      VersionsAreLive(env, d, vs, i, Roots(d));
      LiveSame(env, d, d', vs[i].commit);
      if vs[i].whole { SweptRestore(env, d, d', vs[i].commit); }
    }
    forall i, j | 0 <= i && j == i + 1 && j < |vs| ensures IsParent(env, d', vs[i].commit, vs[j].commit) {
      assert IsParent(env, d, vs[i].commit, vs[j].commit);
    }
  }

  /** What HEAD, HEADS or the registry names, and every ancestor of it, is as complete after a collection as before and
      restores to the same files. */
  lemma RootsAreKept(env: Env, d: Disk, c: Cid)
    requires Complete(env, d, c)
    requires exists h :: (d.head == Some(h) || h in d.heads || h in d.registry) && c in LiveCommits(env, d, {h})
    ensures Complete(env, Collected(env, d), c) && Restore(env, Collected(env, d), c) == Restore(env, d, c)
  {
    hide CommitOf, TreeOf, Complete, Restore, Collected, Swept, Reachable;
    var h :| (d.head == Some(h) || h in d.heads || h in d.registry) && c in LiveCommits(env, d, {h});
    MoreRoots(GraphOf(env, d), {h}, Roots(d));
    CollectedIsSwept(env, d);
    CompleteLoads(env, d, c);
    SweptRestore(env, d, Collected(env, d), c);
  }

  lemma CompleteLoads(env: Env, d: Disk, c: Cid)
    requires Complete(env, d, c)
    ensures Loads(env, d, c)
  {
  }

  // ---------------------------------------------------------------------------------------------
  // Heads that are given up
  // ---------------------------------------------------------------------------------------------

  /** `set_head_public`: HEAD moves, and HEADS gains the new head. */
  function Adopted(d: Disk, c: Cid): Disk {
    d.(head := Some(c), heads := d.heads + {c})
  }

  /** Adopting a head leaves the old one to GC exactly when nothing else leads to it or names it as a tree. */
  lemma OldHeadAfterAdopting(env: Env, d: Disk, c: Cid, was: Cid)
    requires was in d.commits
    ensures var roots := {c} + d.heads + (set h | h in d.registry);
            was in Collected(env, Adopted(d, c)).commits <==>
              was in LiveCommits(env, d, roots) || was in LiveTrees(env, d, roots)
  {
    hide LoadCommit, Closure;
    var d' := Adopted(d, c);
    SameCommits(env, d, d');
    assert Roots(d') == {c} + d.heads + (set h | h in d.registry);
    CollectedLeaves(env, d', was);
    assert forall x :: TreeName(env, d', x) == TreeName(env, d, x);
  }

  lemma SameCommits(env: Env, d: Disk, d': Disk)
    requires d'.commits == d.commits
    ensures forall h :: LoadCommit(env, d', h) == LoadCommit(env, d, h)
    ensures GraphOf(env, d') == GraphOf(env, d)
  {
  }
}
