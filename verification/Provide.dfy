/** The provider's side (`collect_provide_hashes` of src/vault.rs) and the theorem that joins it to the fetch:
    what a provider collects is all that a fetcher asks for. */
module Provide {
  import opened Bytes
  import opened Trees
  import opened Frames
  import opened Commits
  import opened Disks
  import opened Versions
  import opened Reach
  import opened Gc
  import opened Vaults
  import opened Network
  import opened Sync

  type Items = seq<(Cid, bytes)>

  datatype ProvideError = TooManyCommits(seen: set<Cid>) | Unreadable(error: Error)

  // ---------------------------------------------------------------------------------------------
  // What has been collected
  // ---------------------------------------------------------------------------------------------

  ghost predicate Named(out: Items, k: Cid) {
    exists i :: 0 <= i < |out| && out[i].0 == k
  }

  ghost predicate AllNamed(out: Items, blobs: set<Cid>) {
    forall k :: k in blobs ==> Named(out, k)
  }

  /** Every item is an object of the vault under its own hash. */
  ghost predicate Genuine(env: Env, d: Disk, out: Items) {
    forall i :: 0 <= i < |out| ==> env.H(out[i].1) == out[i].0 && IsObject(d, out[i].0, out[i].1)
  }

  predicate IsObject(d: Disk, k: Cid, w: bytes) {
    || (k in d.commits && d.commits[k] == w)
    || (k in d.trees && d.trees[k] == w)
    || (k in d.chunks && d.chunks[k] == w)
  }

  lemma Emit(env: Env, d: Disk, out: Items, blobs: set<Cid>, k: Cid, w: bytes)
    requires Genuine(env, d, out) && env.H(w) == k && IsObject(d, k, w)
    ensures Genuine(env, d, out + [(k, w)])
    ensures AllNamed(out, blobs) ==> AllNamed(out + [(k, w)], blobs + {k})
    ensures OnlyNamed(out, blobs) ==> OnlyNamed(out + [(k, w)], blobs + {k})
  {
    hide IsObject;
    var all := out + [(k, w)];
    assert all[|out|].0 == k;
    forall x | Named(out, x) ensures Named(all, x) {
      var i :| 0 <= i < |out| && out[i].0 == x;
      assert all[i].0 == x;
    }
  }

  ghost predicate OnlyNamed(out: Items, blobs: set<Cid>) {
    forall i :: 0 <= i < |out| ==> out[i].0 in blobs
  }

  /** The target and all its ancestors are complete. */
  ghost predicate LineComplete(env: Env, d: Disk, target: Cid) {
    Complete(env, d, target) && forall c, q :: c in Line(env, d, target) && (q == c || IsParent(env, d, q, c)) ==>
        Complete(env, d, q)
  }

  lemma SameTreeSameChunks(env: Env, d: Disk, c: Cid, x: Cid, t: Cid)
    requires t in TreeName(env, d, c) && t in TreeName(env, d, x)
    ensures ChunkNames(env, d, x) == ChunkNames(env, d, c)
  {
  }

  lemma LoadedNames(env: Env, d: Disk, h: Cid)
    ensures LoadCommit(env, d, h).Ok? ==> env.H(d.commits[h]) == h
    ensures LoadTree(env, d, h).Ok? ==> env.H(d.trees[h]) == h
  {
    hide DecodeCommitWire, DecodeTreeWire, CommitWire, TreeWire;
  }

  lemma LineHasChunks(env: Env, d: Disk, target: Cid, c: Cid)
    requires LineComplete(env, d, target) && c in Line(env, d, target)
    ensures Complete(env, d, c) && TreeName(env, d, c) <= d.trees.Keys && TreeName(env, d, c) != {}
    ensures forall k :: k in ChunkNames(env, d, c) ==> k in d.chunks
  {
    hide CommitOf, TreeOf, Line;
  }

  // ---------------------------------------------------------------------------------------------
  // What a walk collects
  // ---------------------------------------------------------------------------------------------

  /** The commit's tree is here under a name that has not been collected. */
  predicate FreshTree(env: Env, d: Disk, blobs: set<Cid>, c: Cid) {
    LoadCommit(env, d, c).Ok? && LoadCommit(env, d, c).value.tree in d.trees
        && LoadCommit(env, d, c).value.tree !in blobs + {c}
  }

  /** The names collected after one more commit: a tree whose name is there brings nothing. */
  function BlobsStep(env: Env, d: Disk, blobs: set<Cid>, c: Cid): set<Cid> {
    if FreshTree(env, d, blobs, c) then blobs + {c} + TreeName(env, d, c) + ChunkNames(env, d, c) else blobs + {c}
  }

  /** The names collected on a walk through these commits. */
  function BlobsAfter(env: Env, d: Disk, order: seq<Cid>): set<Cid> {
    if order == [] then {} else BlobsStep(env, d, BlobsAfter(env, d, order[..|order| - 1]), order[|order| - 1])
  }

  lemma {:induction false} BlobsPrefix(env: Env, d: Disk, order: seq<Cid>, i: nat)
    requires i <= |order|
    ensures BlobsAfter(env, d, order[..i]) <= BlobsAfter(env, d, order)
    decreases |order|
  {
    hide FreshTree, TreeName, ChunkNames;
    if i < |order| {
      var front := order[..|order| - 1];
      assert front[..i] == order[..i];
      BlobsPrefix(env, d, front, i);
    } else {
      assert order[..i] == order;
    }
  }

  /** Everything collected is asked for by a commit of the walk. */
  lemma {:induction false} BlobsAreAsked(env: Env, d: Disk, order: seq<Cid>, k: Cid) returns (i: nat)
    requires k in BlobsAfter(env, d, order)
    ensures i < |order| && Asked(env, d, order[i], k)
    decreases |order|
  {
    hide FreshTree, TreeName, ChunkNames;
    i := |order| - 1;
    if !Asked(env, d, order[i], k) {
      i := BlobsAreAsked(env, d, order[..|order| - 1], k);
    }
  }

  /** At commit `i` the tree's name has been collected, though not as that of a tree. */
  ghost predicate Skipped(env: Env, d: Disk, order: seq<Cid>, i: nat)
    requires i < |order|
  {
    && TreeName(env, d, order[i]) * (BlobsAfter(env, d, order[..i]) + {order[i]}) != {}
    && forall j :: 0 <= j < i ==> TreeName(env, d, order[j]) != TreeName(env, d, order[i])
  }

  /** The chunks of a tree that is skipped turn up elsewhere on the walk. */
  ghost predicate SkipsNothing(env: Env, d: Disk, order: seq<Cid>) {
    forall i, k :: 0 <= i < |order| && Skipped(env, d, order, i) && k in ChunkNames(env, d, order[i]) ==>
        k in BlobsAfter(env, d, order)
  }

  /** Every tree on the walk is here. */
  ghost predicate TreesHere(env: Env, d: Disk, order: seq<Cid>) {
    forall i :: 0 <= i < |order| ==> Loads(env, d, order[i])
  }

  lemma OneTree(env: Env, d: Disk, c: Cid)
    requires Loads(env, d, c)
    ensures TreeName(env, d, c) == {LoadCommit(env, d, c).value.tree} && LoadCommit(env, d, c).value.tree in d.trees
  {
    hide CommitOf, TreeOf;
  }

  /** The commit and its tree are always collected. */
  lemma CommitAndTreeCollected(env: Env, d: Disk, order: seq<Cid>, i: nat)
    requires TreesHere(env, d, order) && i < |order|
    ensures order[i] in BlobsAfter(env, d, order) && TreeName(env, d, order[i]) <= BlobsAfter(env, d, order)
  {
    hide LoadCommit, ChunkNames, Loads;
    OneTree(env, d, order[i]);
    BlobsPrefix(env, d, order, i + 1);
    assert order[..i + 1][..i] == order[..i] && order[..i + 1][i] == order[i];
  }

  /** So are its chunks, if nothing that is skipped is lost. */
  lemma {:induction false} ChunksCollected(env: Env, d: Disk, order: seq<Cid>, i: nat)
    requires TreesHere(env, d, order) && SkipsNothing(env, d, order) && i < |order|
    ensures ChunkNames(env, d, order[i]) <= BlobsAfter(env, d, order)
    decreases i
  {
    hide LoadCommit, ChunkNames, Loads;
    OneTree(env, d, order[i]);
    var t := LoadCommit(env, d, order[i]).value.tree;
    if j :| 0 <= j < i && TreeName(env, d, order[j]) == TreeName(env, d, order[i]) {
      assert t in TreeName(env, d, order[j]) && t in TreeName(env, d, order[i]);
      SameTreeSameChunks(env, d, order[i], order[j], t);
      ChunksCollected(env, d, order, j);
    } else if t in BlobsAfter(env, d, order[..i]) + {order[i]} {
      assert t in TreeName(env, d, order[i]) * (BlobsAfter(env, d, order[..i]) + {order[i]});
      assert Skipped(env, d, order, i);
    } else {
      BlobsPrefix(env, d, order, i + 1);
      assert order[..i + 1][..i] == order[..i] && order[..i + 1][i] == order[i];
    }
  }

  ghost predicate AllCollected(env: Env, d: Disk, order: seq<Cid>) {
    forall i, k :: 0 <= i < |order| && Asked(env, d, order[i], k) ==> k in BlobsAfter(env, d, order)
  }

  /** Everything asked for on the walk is collected exactly when the chunks of skipped trees turn up elsewhere. */
  lemma CollectedExactly(env: Env, d: Disk, order: seq<Cid>)
    requires TreesHere(env, d, order)
    ensures AllCollected(env, d, order) <==> SkipsNothing(env, d, order)
  {
    hide TreesHere, TreeName, ChunkNames, BlobsAfter, Skipped;
    if SkipsNothing(env, d, order) {
      forall i, k | 0 <= i < |order| && Asked(env, d, order[i], k) ensures k in BlobsAfter(env, d, order) {
        CommitAndTreeCollected(env, d, order, i);
        ChunksCollected(env, d, order, i);
      }
    }
    if AllCollected(env, d, order) {
      forall i, k | 0 <= i < |order| && Skipped(env, d, order, i) && k in ChunkNames(env, d, order[i])
        ensures k in BlobsAfter(env, d, order)
      {
        assert Asked(env, d, order[i], k);
      }
      assert SkipsNothing(env, d, order);
    }
  }

  /** No tree on the line shares its name with a chunk or a commit of the line. */
  ghost predicate TreesApart(env: Env, d: Disk, target: Cid) {
    forall c, x, t :: c in Line(env, d, target) && x in Line(env, d, target) && t in TreeName(env, d, c) ==>
      t !in ChunkNames(env, d, x) && t != x
  }

  /** Then no tree is skipped. */
  lemma ApartSkipsNothing(env: Env, d: Disk, target: Cid, order: seq<Cid>)
    requires TreesApart(env, d, target) && (forall c :: c in order ==> c in Line(env, d, target))
    ensures SkipsNothing(env, d, order)
  {
    hide TreesApart, Line, ChunkNames, BlobsAfter, Skipped;
    forall i | 0 <= i < |order| ensures !Skipped(env, d, order, i) {
      NotSkipped(env, d, target, order, i);
    }
  }

  lemma NotSkipped(env: Env, d: Disk, target: Cid, order: seq<Cid>, i: nat)
    requires TreesApart(env, d, target) && (forall c :: c in order ==> c in Line(env, d, target)) && i < |order|
    ensures !Skipped(env, d, order, i)
  {
    hide Line, ChunkNames, BlobsAfter, TreeName;
    var c, front := order[i], order[..i];
    assert c in order;
    if x :| x in TreeName(env, d, c) * (BlobsAfter(env, d, front) + {c}) {
      assert x != c;
      var j := BlobsAreAsked(env, d, front, x);
      assert front[j] == order[j] && order[j] in order;
      SameTreeName(env, d, c, order[j], x);
    }
  }

  lemma SameTreeName(env: Env, d: Disk, c: Cid, x: Cid, t: Cid)
    requires t in TreeName(env, d, c)
    ensures t in TreeName(env, d, x) ==> TreeName(env, d, x) == TreeName(env, d, c)
  {
  }

  // ---------------------------------------------------------------------------------------------
  // Collecting
  // ---------------------------------------------------------------------------------------------

  /** The chunk loop. */
  method CollectChunks(env: Env, d: Disk, ids: seq<Cid>, out0: Items, blobs0: set<Cid>)
    returns (out: Items, blobs: set<Cid>)
    requires Genuine(env, d, out0)
    ensures Genuine(env, d, out) && blobs == blobs0 + (set k | k in ids)
    ensures OnlyNamed(out0, blobs0) ==> OnlyNamed(out, blobs)
    ensures AllNamed(out0, blobs0) && StoreOk(env, d) && (forall k :: k in ids ==> k in d.chunks) ==>
              AllNamed(out, blobs)
  {
    hide GoodObject, TreeOf, Genuine, AllNamed;
    out, blobs := out0, blobs0;
    for i := 0 to |ids|
      invariant Genuine(env, d, out) && blobs == blobs0 + (set k | k in ids[..i])
      invariant OnlyNamed(out0, blobs0) ==> OnlyNamed(out, blobs)
      invariant AllNamed(out0, blobs0) && StoreOk(env, d) && (forall k :: k in ids ==> k in d.chunks) ==>
                AllNamed(out, blobs)
    {
      var k := ids[i];
      assert ids[..i + 1] == ids[..i] + [k];
      if k !in blobs {
        if k in d.chunks && env.H(d.chunks[k]) == k {
          Emit(env, d, out, blobs, k, d.chunks[k]);
          out := out + [(k, d.chunks[k])];
        }
        blobs := blobs + {k};
      }
    }
    assert ids[..|ids|] == ids;
  }

  /** One commit that is here: the commit itself, its tree, and the tree's chunks if the tree's name is new. A tree
      whose name was collected before, be it as a chunk, brings neither itself nor its chunks. */
  method CollectCommit(env: Env, d: Disk, c: Cid, out0: Items, blobs0: set<Cid>)
    returns (r: Result<seq<Cid>, ProvideError>, out: Items, blobs: set<Cid>)
    requires c in d.commits && Genuine(env, d, out0)
    ensures Genuine(env, d, out)
    ensures (StoreOk(env, d) ==> r.Ok?) && (r.Err? ==> r.error.Unreadable?)
    ensures r.Ok? ==> LoadCommit(env, d, c).Ok? && r.value == LoadCommit(env, d, c).value.parents
    ensures r.Ok? ==> blobs == BlobsStep(env, d, blobs0, c)
    ensures OnlyNamed(out0, blobs0) ==> OnlyNamed(out, blobs)
    ensures r.Ok? && StoreOk(env, d) && Complete(env, d, c) && AllNamed(out0, blobs0) ==> AllNamed(out, blobs)
  {
    hide StoreOk, TreeOf, CommitOf, Genuine, AllNamed, OnlyNamed;
    out, blobs := out0, blobs0;
    if StoreOk(env, d) { StoredLoads(env, d, c); }
    var commit;
    match LoadCommit(env, d, c) {
      case Err(e) => return Err(Unreadable(e)), out, blobs;
      case Ok(x) => commit := x;
    }
    LoadedNames(env, d, c);
    Emit(env, d, out, blobs, c, d.commits[c]);
    NothingNew(out, blobs, c);
    if c !in blobs {
      out := out + [(c, d.commits[c])];
    }
    blobs := blobs + {c};
    var t := commit.tree;
    NamesOf(env, d, c);
    if t in d.trees && t !in blobs {
      if StoreOk(env, d) { StoredLoads(env, d, t); }
      var tree;
      match LoadTree(env, d, t) {
        case Err(e) => return Err(Unreadable(e)), out, blobs;
        case Ok(x) => tree := x;
      }
      LoadedNames(env, d, t);
      Emit(env, d, out, blobs, t, d.trees[t]);
      out, blobs := out + [(t, d.trees[t])], blobs + {t};
      var ids := AllChunkHashes(tree);
      assert (set k | k in ids) == ChunkNames(env, d, c);
      out, blobs := CollectChunks(env, d, ids, out, blobs);
    }
    r := Ok(commit.parents);
  }

  lemma NothingNew(out: Items, blobs: set<Cid>, c: Cid)
    ensures c in blobs && AllNamed(out, blobs) ==> AllNamed(out, blobs + {c})
    ensures c in blobs && OnlyNamed(out, blobs) ==> OnlyNamed(out, blobs + {c})
  {
    assert c in blobs ==> blobs + {c} == blobs;
  }

  /** The walk so far leads from the target to everything seen and queued, and drops nothing. */
  ghost predicate Spread(env: Env, d: Disk, target: Cid, seen: set<Cid>, queue: seq<Cid>) {
    && (forall c :: c in seen || c in queue ==> WantedCommit(env, d, target, c))
    && (target in seen || target in queue)
    && (forall c, q :: c in seen && IsParent(env, d, q, c) ==> q in seen || q in queue)
  }

  lemma SpreadStart(env: Env, d: Disk, target: Cid)
    ensures Spread(env, d, target, {}, [target])
  {
    hide Line, LoadCommit;
  }

  lemma SpreadSkip(env: Env, d: Disk, target: Cid, seen: set<Cid>, queue: seq<Cid>)
    requires queue != [] && Spread(env, d, target, seen, queue)
    requires queue[0] in seen || LoadCommit(env, d, queue[0]).Err?
    ensures Spread(env, d, target, seen + {queue[0]}, queue[1..])
  {
    hide Line, LoadCommit, WantedCommit;
    assert queue == [queue[0]] + queue[1..];
  }

  lemma SpreadMissing(env: Env, d: Disk, target: Cid, seen: set<Cid>, queue: seq<Cid>)
    requires queue != [] && Spread(env, d, target, seen, queue) && queue[0] !in d.commits
    ensures Spread(env, d, target, seen + {queue[0]}, queue[1..])
  {
    hide CommitOf, Spread;
    SpreadSkip(env, d, target, seen, queue);
  }

  lemma SpreadVisit(env: Env, d: Disk, target: Cid, seen: set<Cid>, queue: seq<Cid>, c: Cid)
    requires queue != [] && queue[0] == c && Spread(env, d, target, seen, queue) && LoadCommit(env, d, c).Ok?
    ensures Spread(env, d, target, seen + {c}, queue[1..] + LoadCommit(env, d, c).value.parents)
  {
    hide CommitOf, Line;
    var parents, rest := LoadCommit(env, d, c).value.parents, queue[1..];
    WantedIsOnLine(env, d, target, c);
    assert queue == [c] + rest;
    forall q | q in seen + {c} || q in rest + parents ensures WantedCommit(env, d, target, q) {
      if q in parents { assert IsParent(env, d, q, c); }
    }
    forall x, q | x in seen + {c} && IsParent(env, d, q, x) ensures q in seen + {c} || q in rest + parents {
    }
  }

  /** On a complete line everything wanted is on the line. */
  lemma WantedIsComplete(env: Env, d: Disk, target: Cid, c: Cid)
    requires LineComplete(env, d, target) && WantedCommit(env, d, target, c)
    ensures c in Line(env, d, target) && c in d.commits
  {
    hide CommitOf, TreeOf, Line, HasChunks;
    if c != target {
      var x :| x in Line(env, d, target) && IsParent(env, d, c, x);
      assert Complete(env, d, c);
    }
    WantedIsOnLine(env, d, target, c);
  }

  /** When the walk is over the whole line has been seen. */
  lemma SpreadEnd(env: Env, d: Disk, target: Cid, seen: set<Cid>)
    requires Spread(env, d, target, seen, [])
    ensures Line(env, d, target) <= seen && |Line(env, d, target)| <= |seen|
  {
    hide CommitOf, Closure, WantedCommit;
    assert ClosedUnder(GraphOf(env, d), {target}, seen) by {
      forall c, q | c in seen && c in GraphOf(env, d) && q in GraphOf(env, d)[c] && q in GraphOf(env, d)
        ensures q in seen
      {
        assert IsParent(env, d, q, c);
      }
    }
    ClosureIsLeast(GraphOf(env, d), {target}, seen);
    SubsetSize(Line(env, d, target), seen);
  }

  lemma {:induction false} SubsetSize<T>(a: set<T>, b: set<T>)
    requires a <= b
    ensures |a| <= |b|
    decreases |a|
  {
    if a != {} {
      var x :| x in a;
      SubsetSize(a - {x}, b - {x});
    }
  }

  /** The commits that a breadth-first walk comes by, in order: one that is not here is passed over, and the walk ends
      if there are too many. */
  function WalkFrom(env: Env, d: Disk, seen: set<Cid>, queue: seq<Cid>): seq<Cid>
    requires |seen| <= MAX_JOB_COMMITS
    decreases MAX_JOB_COMMITS - |seen|, |queue|
  {
    if queue == [] then []
    else
      var c, rest := queue[0], queue[1..];
      if c in seen then WalkFrom(env, d, seen, rest)
      else if |seen| == MAX_JOB_COMMITS then []
      else match LoadCommit(env, d, c)
        case Err(_) => WalkFrom(env, d, seen + {c}, rest)
        case Ok(commit) => [c] + WalkFrom(env, d, seen + {c}, rest + commit.parents)
  }

  /** The order of `collect_provide_hashes`. */
  function WalkOrder(env: Env, d: Disk, target: Cid): seq<Cid> { WalkFrom(env, d, {}, [target]) }

  /** One turn of the walk. */
  lemma WalkStep(env: Env, d: Disk, seen: set<Cid>, queue: seq<Cid>, order: seq<Cid>)
    requires |seen| <= MAX_JOB_COMMITS && queue != []
    ensures var c, rest, all := queue[0], queue[1..], order + WalkFrom(env, d, seen, queue);
            && (c in seen ==> all == order + WalkFrom(env, d, seen, rest))
            && (c !in seen && |seen| < MAX_JOB_COMMITS && LoadCommit(env, d, c).Err? ==>
                  all == order + WalkFrom(env, d, seen + {c}, rest))
            && (c !in seen && |seen| < MAX_JOB_COMMITS && LoadCommit(env, d, c).Ok? ==>
                  all == order + [c] + WalkFrom(env, d, seen + {c}, rest + LoadCommit(env, d, c).value.parents))
  {
    hide LoadCommit;
  }

  /** The walk has been through the line, each commit once and the target first. */
  ghost predicate Walked(env: Env, d: Disk, target: Cid, order: seq<Cid>) {
    && order != [] && order[0] == target
    && (forall c :: c in order <==> c in Line(env, d, target))
    && (forall i, j :: 0 <= i < j < |order| ==> order[i] != order[j])
  }

  /** `collect_provide_hashes`. Every item is genuine. If the target's ancestors are complete, collecting succeeds
      exactly when there are at most MAX_JOB_COMMITS of them; the breadth-first walk has then been through the line,
      the items are those of that walk, and they are all that the line asks for exactly when the chunks of trees that
      it skips turn up elsewhere on it. */
  method CollectProvide(env: Env, d: Disk, target: Cid) returns (r: Result<Items, ProvideError>)
    ensures r.Ok? ==> Genuine(env, d, r.value)
    ensures r.Err? && r.error.TooManyCommits? ==> |r.error.seen| > MAX_JOB_COMMITS && forall c :: c in r.error.seen ==>
              WantedCommit(env, d, target, c)
    ensures StoreOk(env, d) && LineComplete(env, d, target) ==> (r.Ok? <==> |Line(env, d, target)| <= MAX_JOB_COMMITS)
    ensures r.Ok? && StoreOk(env, d) && LineComplete(env, d, target) ==>
              && Walked(env, d, target, WalkOrder(env, d, target))
              && (forall k :: Named(r.value, k) <==> k in BlobsAfter(env, d, WalkOrder(env, d, target)))
              && (NamesAll(env, d, target, r.value) <==> SkipsNothing(env, d, WalkOrder(env, d, target)))
  {
    hide StoreOk, LoadCommit, Line, Genuine, LineComplete, WantedCommit, Spread, IsParent, Asked, BlobsStep, AllNamed,
      OnlyNamed, Complete, SkipsNothing, Named, WalkFrom, InOrder, BlobsAfter, Walked;
    var out: Items, seen: set<Cid>, blobs: set<Cid>, queue := [], {}, {}, [target];
    ghost var order: seq<Cid> := [];
    SpreadStart(env, d, target);
    CollectStart(env, d);
    WalkEnd(env, d, {});
    OrderStart(env, d, target);
    while queue != []
      invariant Spread(env, d, target, seen, queue) && |seen| <= MAX_JOB_COMMITS
      invariant Genuine(env, d, out) && OnlyNamed(out, blobs) && blobs == BlobsAfter(env, d, order)
      invariant InOrder(target, seen, order, LineComplete(env, d, target)) && (seen == {} ==> queue == [target])
      invariant order + WalkFrom(env, d, seen, queue) == WalkOrder(env, d, target)
      invariant StoreOk(env, d) && LineComplete(env, d, target) ==> AllNamed(out, blobs)
      decreases MAX_JOB_COMMITS - |seen|, |queue|
    {
      var c, rest := queue[0], queue[1..];
      SpreadWants(env, d, target, seen, queue);
      WalkStep(env, d, seen, queue, order);
      if c in seen {
        SpreadSkip(env, d, target, seen, queue);
        assert seen + {c} == seen;
        queue := rest;
      } else {
        ghost var before := seen;
        if LineComplete(env, d, target) {
          WantedIsComplete(env, d, target, c);
          LineHasChunks(env, d, target, c);
        }
        seen := seen + {c};
        if |seen| > MAX_JOB_COMMITS {
          TooManyIsRight(env, d, target, seen);
          return Err(TooManyCommits(seen));
        }
        if c !in d.commits {
          SpreadMissing(env, d, target, before, queue);
          OrderSkips(target, before, order, c);
          NotHere(env, d, c);
          queue := rest;
        } else {
          var parents;
          parents, out, blobs := CollectCommit(env, d, c, out, blobs);
          match parents {
            case Err(e) => return Err(e);
            case Ok(ps) =>
              SpreadVisit(env, d, target, before, queue, c);
              OrderStep(env, d, target, before, order, c, LineComplete(env, d, target));
              order := order + [c];
              queue := rest + ps;
          }
        }
      }
    }
    SpreadEnd(env, d, target, seen);
    WalkEnd(env, d, seen);
    assert order + [] == order;
    if StoreOk(env, d) && LineComplete(env, d, target) { CollectEnd(env, d, target, seen, blobs, out, order); }
    r := Ok(out);
  }

  /** The walk so far: commits seen, once each; on a complete line all that were seen, the target first. */
  ghost predicate InOrder(target: Cid, seen: set<Cid>, order: seq<Cid>, whole: bool) {
    && (forall c :: c in order ==> c in seen) && (forall i, j :: 0 <= i < j < |order| ==> order[i] != order[j])
    && (whole ==> (forall c :: c in seen ==> c in order) && (seen != {} ==> order != [] && order[0] == target))
  }

  lemma OrderStart(env: Env, d: Disk, target: Cid)
    ensures forall whole :: InOrder(target, {}, [], whole)
    ensures BlobsAfter(env, d, []) == {}
  {
  }

  lemma OrderStep(env: Env, d: Disk, target: Cid, seen: set<Cid>, order: seq<Cid>, c: Cid, whole: bool)
    requires InOrder(target, seen, order, whole) && c !in seen && (seen == {} ==> c == target)
    ensures InOrder(target, seen + {c}, order + [c], whole)
    ensures BlobsAfter(env, d, order + [c]) == BlobsStep(env, d, BlobsAfter(env, d, order), c)
  {
    hide BlobsStep;
    assert (order + [c])[..|order|] == order;
    if order != [] { assert order[0] in order; }
  }

  lemma OrderSkips(target: Cid, seen: set<Cid>, order: seq<Cid>, c: Cid)
    requires InOrder(target, seen, order, false)
    ensures InOrder(target, seen + {c}, order, false)
  {
  }

  lemma WalkEnd(env: Env, d: Disk, seen: set<Cid>)
    requires |seen| <= MAX_JOB_COMMITS
    ensures WalkFrom(env, d, seen, []) == []
  {
  }

  lemma NotHere(env: Env, d: Disk, c: Cid)
    requires c !in d.commits
    ensures LoadCommit(env, d, c).Err?
  {
  }

  ghost predicate NamesAll(env: Env, d: Disk, target: Cid, out: Items) {
    forall c, k :: c in Line(env, d, target) && Asked(env, d, c, k) ==> Named(out, k)
  }

  lemma CollectStart(env: Env, d: Disk)
    ensures Genuine(env, d, []) && AllNamed([], {}) && OnlyNamed([], {})
  {
  }

  lemma CollectEnd(env: Env, d: Disk, target: Cid, seen: set<Cid>, blobs: set<Cid>, out: Items, order: seq<Cid>)
    requires LineComplete(env, d, target) && Spread(env, d, target, seen, []) && Line(env, d, target) <= seen
    requires InOrder(target, seen, order, true)
    requires AllNamed(out, blobs) && OnlyNamed(out, blobs) && blobs == BlobsAfter(env, d, order)
    ensures Walked(env, d, target, order)
    ensures forall k :: Named(out, k) <==> k in blobs
    ensures NamesAll(env, d, target, out) <==> SkipsNothing(env, d, order)
  {
    hide Line, LineComplete, Asked, BlobsAfter, SkipsNothing, WantedCommit, IsParent, Loads;
    forall c | c in seen ensures c in Line(env, d, target) { WantedIsComplete(env, d, target, c); }
    forall i | 0 <= i < |order| ensures Loads(env, d, order[i]) {
      assert order[i] in order;
      LineHasChunks(env, d, target, order[i]);
    }
    CollectedExactly(env, d, order);
    assert forall k :: Named(out, k) <==> k in blobs;
    if NamesAll(env, d, target, out) {
      forall i, k | 0 <= i < |order| && Asked(env, d, order[i], k) ensures k in blobs { assert order[i] in order; }
    }
    if SkipsNothing(env, d, order) {
      forall c, k | c in Line(env, d, target) && Asked(env, d, c, k) ensures Named(out, k) {
        var i :| 0 <= i < |order| && order[i] == c;
      }
    }
  }

  lemma SpreadWants(env: Env, d: Disk, target: Cid, seen: set<Cid>, queue: seq<Cid>)
    requires Spread(env, d, target, seen, queue)
    ensures forall c :: c in seen || c in queue ==> WantedCommit(env, d, target, c)
  {
  }

  lemma TooManyIsRight(env: Env, d: Disk, target: Cid, seen: set<Cid>)
    requires |seen| > MAX_JOB_COMMITS && forall c :: c in seen ==> WantedCommit(env, d, target, c)
    ensures LineComplete(env, d, target) ==> |Line(env, d, target)| > MAX_JOB_COMMITS
  {
    hide Line, LineComplete, WantedCommit;
    if LineComplete(env, d, target) {
      forall c | c in seen ensures c in Line(env, d, target) { WantedIsComplete(env, d, target, c); }
      SubsetSize(seen, Line(env, d, target));
    }
  }

  // ---------------------------------------------------------------------------------------------
  // One honest peer is enough
  // ---------------------------------------------------------------------------------------------

  /** The two disks have the same bytes under the commit and tree names they share. */
  ghost predicate Agree(p: Disk, d: Disk) {
    && (forall k :: k in p.commits && k in d.commits ==> d.commits[k] == p.commits[k])
    && (forall k :: k in p.trees && k in d.trees ==> d.trees[k] == p.trees[k])
  }

  /** In this run no peer answered a request for a commit or tree of `p` with other bytes of the same hash. */
  ghost predicate NoForgery(H: bytes -> Cid, p: Disk, log: seq<Exchange>, lo: nat, peers: seq<Peer>) {
    forall i :: lo <= i < |log| && log[i].peer in peers && log[i].answer.Some? && H(log[i].answer.value) == log[i].k ==>
      && (log[i].k in p.commits ==> log[i].answer.value == p.commits[log[i].k])
      && (log[i].k in p.trees ==> log[i].answer.value == p.trees[log[i].k])
  }

  /** In this run the peer had a good answer whenever it was asked for an item. */
  ghost predicate Served(H: bytes -> Cid, items: Items, log: seq<Exchange>, lo: nat, peer: Peer) {
    forall i :: lo <= i < |log| && log[i].peer == peer && Named(items, log[i].k) ==>
        Checked(H, log[i].answer, log[i].k).Some?
  }

  /** A peer that hands out what was collected, if nothing of it is too large, serves it. */
  lemma HandingOutServes(env: Env, d: Disk, items: Items, log: seq<Exchange>, lo: nat, peer: Peer)
    requires Genuine(env, d, items) && forall i :: 0 <= i < |items| ==> |items[i].1| <= MAX_BLOB_BYTES
    requires forall i :: lo <= i < |log| && log[i].peer == peer && Named(items, log[i].k) ==>
               exists j :: 0 <= j < |items| && items[j].0 == log[i].k && log[i].answer == Some(items[j].1)
    ensures Served(env.H, items, log, lo, peer)
  {
    forall i | lo <= i < |log| && log[i].peer == peer && Named(items, log[i].k)
      ensures Checked(env.H, log[i].answer, log[i].k).Some?
    {
      var j :| 0 <= j < |items| && items[j].0 == log[i].k && log[i].answer == Some(items[j].1);
      assert env.H(items[j].1) == items[j].0;
    }
  }

  lemma AgreeLoads(env: Env, p: Disk, d: Disk, k: Cid)
    requires Agree(p, d)
    ensures k in p.commits && k in d.commits ==> LoadCommit(env, d, k) == LoadCommit(env, p, k)
    ensures k in p.trees && k in d.trees ==> LoadTree(env, d, k) == LoadTree(env, p, k)
  {
    hide CommitOf, TreeOf;
  }

  /** A fetch among such peers keeps the agreement. */
  lemma StillAgree(env: Env, p: Disk, d: Disk, d': Disk, log: seq<Exchange>, lo: nat, peers: seq<Peer>, target: Cid)
    requires Agree(p, d) && Extends(d, d') && StoreOk(env, d')
    requires Sourced(env, log, lo, peers, d, d', target) && NoForgery(env.H, p, log, lo, peers)
    ensures Agree(p, d')
  {
    hide WantedCommit, WantedTree, WantedChunk, StoreOk;
    forall k | k in p.commits && k in d'.commits ensures d'.commits[k] == p.commits[k] {
      StoredLoads(env, d', k);
      LoadedNames(env, d', k);
    }
    forall k | k in p.trees && k in d'.trees ensures d'.trees[k] == p.trees[k] {
      StoredLoads(env, d', k);
      LoadedNames(env, d', k);
    }
  }

  /** The fetcher's line stays within the provider's. */
  lemma LineWithin(env: Env, p: Disk, d: Disk, target: Cid)
    requires Agree(p, d) && LineComplete(env, p, target)
    ensures Line(env, d, target) <= Line(env, p, target)
    ensures forall c :: WantedCommit(env, d, target, c) ==> c in Line(env, p, target)
  {
    hide CommitOf, TreeOf, Closure, Agree, HasChunks, Asked;
    var g, s := GraphOf(env, d), Line(env, p, target);
    assert WantedCommit(env, p, target, target);
    WantedIsComplete(env, p, target, target);
    forall c, q | c in s && c in d.commits && IsParent(env, d, q, c) ensures q in s {
      WithinLine(env, p, d, target, c, q);
    }
    assert ClosedUnder(g, {target}, s) by {
      forall c, q | c in s && c in g && q in g[c] && q in g ensures q in s {
        assert IsParent(env, d, q, c);
      }
    }
    ClosureIsLeast(g, {target}, s);
    forall c | WantedCommit(env, d, target, c) ensures c in s {
      if c != target {
        var x :| x in Line(env, d, target) && IsParent(env, d, c, x);
      }
    }
  }

  lemma WithinLine(env: Env, p: Disk, d: Disk, target: Cid, c: Cid, q: Cid)
    requires Agree(p, d) && LineComplete(env, p, target)
    requires c in Line(env, p, target) && c in d.commits && IsParent(env, d, q, c)
    ensures q in Line(env, p, target)
  {
    hide CommitOf, TreeOf, Line, Agree, HasChunks;
    AgreeLoads(env, p, d, c);
    LineHasChunks(env, p, target, c);
    assert IsParent(env, p, q, c);
    WantedIsComplete(env, p, target, q);
  }

  /** What the fetcher asks for on behalf of a commit, the provider names for it too. */
  lemma SameAsked(env: Env, p: Disk, d: Disk, target: Cid, c: Cid, k: Cid)
    requires Agree(p, d) && LineComplete(env, p, target) && c in Line(env, p, target)
    requires Asked(env, d, c, k)
    ensures Asked(env, p, c, k)
    ensures TreeName(env, d, c) <= TreeName(env, p, c)
  {
    hide CommitOf, TreeOf, Line, Agree, HasChunks, LineComplete;
    LineHasChunks(env, p, target, c);
    AgreeLoads(env, p, d, c);
    if c in d.commits && LoadCommit(env, d, c).Ok? {
      AgreeLoads(env, p, d, LoadCommit(env, d, c).value.tree);
    }
  }

  /** A provider whose line is complete, not too long and collected in full, and one peer that serves it. */
  ghost predicate Offered(env: Env, p: Disk, target: Cid, items: Items, log: seq<Exchange>, lo: nat, peers: seq<Peer>,
                          honest: Peer) {
    && StoreOk(env, p) && LineComplete(env, p, target)
    && |Line(env, p, target)| <= MAX_JOB_COMMITS && NamesAll(env, p, target, items)
    && honest in peers && Served(env.H, items, log, lo, honest)
  }

  /** Against such an offer a fetch whose checkpoints were right cannot fail: it can only be cut short. */
  lemma OnlyCrashes(env: Env, p: Disk, d: Disk, target: Cid, items: Items, log: seq<Exchange>, lo: nat,
                    peers: seq<Peer>, honest: Peer, e: SyncError)
    requires Offered(env, p, target, items, log, lo, peers, honest) && Agree(p, d)
              && NoForgery(env.H, p, log, lo, peers)
    requires Blamed(env, log, lo, peers, d, target, true, e)
    ensures e == Crashed
  {
    hide StoreOk, Line, Agree, NoForgery, LineComplete, NamesAll, Served, WantedCommit, Explains;
    LineWithin(env, p, d, target);
    match e {
      case TooDeep(seen) => SubsetSize(seen, Line(env, p, target));
      case Unavailable(_) => NotExplained(env, p, d, target, items, log, lo, peers, honest, e);
      case BadCommit(_, _) => NotExplained(env, p, d, target, items, log, lo, peers, honest, e);
      case BadTree(_, _) => NotExplained(env, p, d, target, items, log, lo, peers, honest, e);
      case _ =>
    }
  }

  lemma NotExplained(env: Env, p: Disk, d: Disk, target: Cid, items: Items, log: seq<Exchange>, lo: nat,
                     peers: seq<Peer>, honest: Peer, e: SyncError)
    requires Offered(env, p, target, items, log, lo, peers, honest) && Agree(p, d)
              && NoForgery(env.H, p, log, lo, peers)
    ensures forall c :: WantedCommit(env, d, target, c) ==> !Explains(env, log, lo, peers, d, c, e)
  {
    hide StoreOk, Line, Agree, NoForgery, LineComplete, NamesAll, Served, WantedCommit, Asked, GoodObject, TreeOf,
      TreeName, FromPeer, AllFailed;
    LineWithin(env, p, d, target);
    forall c | WantedCommit(env, d, target, c) ensures !Explains(env, log, lo, peers, d, c, e) {
      match e {
        case Unavailable(k) => Available(env, p, d, target, items, log, lo, peers, honest, c, k);
        case BadCommit(k, data) => GoodBytes(env, p, d, target, c, k, data, log, lo, peers);
        case BadTree(k, data) => GoodBytes(env, p, d, target, c, k, data, log, lo, peers);
        case _ =>
      }
    }
  }

  /** Everything a commit of the line needs is available. */
  lemma Available(env: Env, p: Disk, d: Disk, target: Cid, items: Items, log: seq<Exchange>, lo: nat, peers: seq<Peer>,
                  honest: Peer, c: Cid, k: Cid)
    requires Offered(env, p, target, items, log, lo, peers, honest) && Agree(p, d) && c in Line(env, p, target)
    ensures !Explains(env, log, lo, peers, d, c, Unavailable(k))
  {
    hide StoreOk, Line, Agree, LineComplete, Asked, Checked;
    if Asked(env, d, c, k) {
      SameAsked(env, p, d, target, c, k);
      assert Named(items, k);
    }
  }

  /** Bytes given for a commit or tree of the line are that commit or tree. */
  lemma GoodBytes(env: Env, p: Disk, d: Disk, target: Cid, c: Cid, k: Cid, data: bytes, log: seq<Exchange>, lo: nat,
                  peers: seq<Peer>)
    requires StoreOk(env, p) && Agree(p, d) && NoForgery(env.H, p, log, lo, peers) && LineComplete(env, p, target)
              && c in Line(env, p, target)
    ensures !Explains(env, log, lo, peers, d, c, BadCommit(k, data))
    ensures !Explains(env, log, lo, peers, d, c, BadTree(k, data))
  {
    hide Line, LineComplete, CommitOf, TreeOf, GoodObject, ChunkNames, Agree;
    LineHasChunks(env, p, target, c);
    if k in TreeName(env, d, c) { SameAsked(env, p, d, target, c, k); }
  }

  /** No tree of the line is named like a chunk of the line. */
  ghost predicate NoTreeIsChunk(env: Env, d: Disk, target: Cid) {
    forall c, x, t :: c in Line(env, d, target) && x in Line(env, d, target) && t in TreeName(env, d, c) ==>
        t !in ChunkNames(env, d, x)
  }

  /** No two different objects of this disk, a commit and a tree, share a name. */
  ghost predicate NamesApart(d: Disk) {
    forall k :: k in d.commits && k in d.trees ==> d.commits[k] == d.trees[k]
  }

  /** Then only chunks can keep a tree from being collected. */
  lemma OnlyChunksMatter(env: Env, p: Disk, target: Cid)
    requires StoreOk(env, p) && NamesApart(p) && LineComplete(env, p, target) && NoTreeIsChunk(env, p, target)
    ensures TreesApart(env, p, target)
  {
    hide StoreOk, Line, LineComplete, ChunkNames, TreeName;
    forall c, x, t | c in Line(env, p, target) && x in Line(env, p, target) && t in TreeName(env, p, c)
      ensures t !in ChunkNames(env, p, x) && t != x
    {
      LineHasChunks(env, p, target, c);
      LineHasChunks(env, p, target, x);
      if t == x { SharedNameIsCollision(env, p, x); }
    }
  }

  /** How a disk is read depends on the hash function alone, and its soundness on the signature relation too. */
  lemma SameReading(env: Env, env': Env, d: Disk, target: Cid)
    requires env'.H == env.H && env'.V == env.V
    ensures forall h :: LoadCommit(env', d, h) == LoadCommit(env, d, h) && LoadTree(env', d, h) == LoadTree(env, d, h)
    ensures Line(env', d, target) == Line(env, d, target)
    ensures StoreOk(env', d) <==> StoreOk(env, d)
    ensures forall c :: Complete(env', d, c) <==> Complete(env, d, c)
    ensures forall c, q :: IsParent(env', d, q, c) <==> IsParent(env, d, q, c)
    ensures forall c, k :: Asked(env', d, c, k) <==> Asked(env, d, c, k)
  {
    hide CommitOf, TreeOf, Reachable, SignatureOk, GoodCommit;
    assert GraphOf(env', d) == GraphOf(env, d);
  }

  lemma SameLineComplete(env: Env, env': Env, d: Disk, target: Cid)
    requires env'.H == env.H && env'.V == env.V && LineComplete(env, d, target)
    ensures LineComplete(env', d, target)
  {
    hide Line, IsParent, Complete, StoreOk, LoadCommit, LoadTree, Asked;
    SameReading(env, env', d, target);
  }

  lemma SameNamesAll(env: Env, env': Env, d: Disk, target: Cid, items: Items)
    requires env'.H == env.H && env'.V == env.V && NamesAll(env, d, target, items)
    ensures NamesAll(env', d, target, items)
  {
    hide Line, IsParent, Complete, StoreOk, LoadCommit, LoadTree, Asked, Named;
    SameReading(env, env', d, target);
  }

  /** A provider that collects its line, one honest peer among any others, and a fetcher whose checkpoints are right.
      The offer is made exactly when the line is not too long, and it is complete if no tree is named like a chunk.
      If it is complete, the honest peer serves it, and no hash collides in what the run touches, then a process that
      does not die fetches it, and off the fast path that brings every ancestor. */
  method Transfer(seller: Env, p: Disk, engine: Engine, peers: seq<Peer>, honest: Peer, target: Cid, setHead: bool)
    returns (offer: Result<Items, ProvideError>, r: Result<SyncResult, SyncError>)
    requires StoreOk(seller, p) && LineComplete(seller, p, target)
    requires engine.Valid() && engine.JobsOk() && honest in peers
    requires engine.vault.env.H == seller.H && engine.vault.env.V == seller.V
    modifies engine, engine.vault, engine.net
    ensures offer.Ok? <==> |Line(seller, p, target)| <= MAX_JOB_COMMITS
    ensures offer.Ok? ==> Genuine(seller, p, offer.value)
    ensures offer.Ok? ==>
              (NamesAll(seller, p, target, offer.value) <==> SkipsNothing(seller, p, WalkOrder(seller, p, target)))
    ensures offer.Ok? && NamesApart(p) && NoTreeIsChunk(seller, p, target) ==> NamesAll(seller, p, target, offer.value)
    ensures offer.Ok? && NamesAll(seller, p, target, offer.value) && Agree(p, old(engine.vault.disk))
            && NoForgery(seller.H, p, engine.net.log, |old(engine.net.log)|, peers)
            && Served(seller.H, offer.value, engine.net.log, |old(engine.net.log)|, honest)
            ==> (old(engine.life).None? ==> r.Ok?) && (r.Err? ==> r.error == Crashed)
    ensures r == Err(Crashed) ==> old(engine.life).Some?
    ensures r.Ok? ==> Complete(engine.vault.env, engine.vault.disk, target)
    ensures r.Ok? && setHead ==> engine.vault.disk.head == Some(target)
    ensures r.Ok? && !Complete(engine.vault.env, old(engine.vault.disk), target) ==>
              Whole(engine.vault.env, engine.vault.disk, target)
  {
    hide StoreOk, Agree, LineComplete, TreesApart, NoTreeIsChunk, NamesAll, Served, NoForgery, NamesApart, Line,
      Represents, Trusted, JobOk, Complete, Whole, Blamed, IsClash, Sourced, SkipsNothing, BlobsAfter, Walked,
          WalkOrder, Extends, LoadCommit, LoadTree, Asked, Named, TreesHere;
    ghost var turns, lo, before, env := 0, |engine.net.log|, engine.vault.disk, engine.vault.env;
    offer := CollectProvide(seller, p, target);
    if offer.Ok? && NamesApart(p) && NoTreeIsChunk(seller, p, target) {
      OnlyChunksMatter(seller, p, target);
      WalkedTrees(seller, p, target, WalkOrder(seller, p, target));
      ApartSkipsNothing(seller, p, target, WalkOrder(seller, p, target));
    }
    r, turns := engine.FetchDag(peers, target, setHead);
    if r.Err? && offer.Ok? && NamesAll(seller, p, target, offer.value) && Agree(p, before)
       && NoForgery(seller.H, p, engine.net.log, lo, peers)
            && Served(seller.H, offer.value, engine.net.log, lo, honest) {
      StillAgree(env, p, before, engine.vault.disk, engine.net.log, lo, peers, target);
      SameReading(seller, env, p, target);
      SameLineComplete(seller, env, p, target);
      SameNamesAll(seller, env, p, target, offer.value);
      OnlyCrashes(env, p, engine.vault.disk, target, offer.value, engine.net.log, lo, peers, honest, r.error);
    }
  }

  lemma WalkedTrees(env: Env, d: Disk, target: Cid, order: seq<Cid>)
    requires Walked(env, d, target, order) && LineComplete(env, d, target)
    ensures TreesHere(env, d, order) && forall c :: c in order ==> c in Line(env, d, target)
  {
    hide Line, LineComplete, Loads;
    forall i | 0 <= i < |order| ensures Loads(env, d, order[i]) {
      assert order[i] in order;
      LineHasChunks(env, d, target, order[i]);
    }
  }
}
