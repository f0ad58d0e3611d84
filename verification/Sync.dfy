/** The checkpointed DAG fetch of src/sync.rs: a worklist over untrusted peers that may crash before any write to
    disk and be resumed. */
module Sync {
  import opened Bytes
  import opened Trees
  import opened TreeCodec
  import opened Commits
  import opened Disks
  import opened Versions
  import opened Reach
  import opened Gc
  import opened Vaults
  import opened Network

  const MAX_JOB_COMMITS: nat := 10_000

  datatype State = Fetching | Verifying | Done | Failed

  /** A checkpoint. */
  datatype Job = Job(target: Cid, state: State, doneCommits: set<Cid>, doneTrees: set<Cid>, doneChunks: set<Cid>)

  function NewJob(target: Cid): Job { Job(target, Fetching, {}, {}, {}) }

  /** What is done is on the disk. */
  ghost predicate JobOk(d: Disk, job: Job) {
    && job.doneCommits <= d.commits.Keys
    && job.doneTrees <= d.trees.Keys
    && job.doneChunks <= d.chunks.Keys
  }

  /** The job that a fetch takes up: the unfinished one on disk, or a new one. */
  function Resumed(jobs: map<Cid, Job>, target: Cid): Job {
    if target in jobs && jobs[target].target == target && jobs[target].state != Done then jobs[target]
    else NewJob(target)
  }

  /** What one job lists, the other lists too. */
  predicate ListsAll(job: Job, job': Job) {
    job.doneCommits <= job'.doneCommits && job.doneTrees <= job'.doneTrees && job.doneChunks <= job'.doneChunks
  }

  /** Nothing that the job lists as done has been stored. */
  ghost predicate NotStored(d: Disk, d': Disk, job: Job) {
    && (forall k :: k in job.doneCommits && k in d'.commits ==> k in d.commits)
    && (forall k :: k in job.doneTrees && k in d'.trees ==> k in d.trees)
    && (forall k :: k in job.doneChunks && k in d'.chunks ==> k in d.chunks)
  }

  /** Part of a fetch: what the job lists as done is not fetched, and stays listed, in memory and on disk. */
  ghost predicate Passes(d: Disk, jobs: map<Cid, Job>, job: Job, d': Disk, jobs': map<Cid, Job>, job': Job) {
    && job'.target == job.target && job'.state == job.state && ListsAll(job, job') && NotStored(d, d', job)
    && (jobs' == jobs || Saved(job, jobs'))
  }

  /** The checkpoint on disk is of this job or a later one. */
  predicate Saved(job: Job, jobs: map<Cid, Job>) {
    job.target in jobs && jobs[job.target].target == job.target && jobs[job.target].state == job.state
        && ListsAll(job, jobs[job.target])
  }

  lemma NothingPasses(d: Disk, jobs: map<Cid, Job>, job: Job)
    ensures Passes(d, jobs, job, d, jobs, job)
  {
  }

  lemma PassesTwice(d0: Disk, jobs0: map<Cid, Job>, job0: Job, d1: Disk, jobs1: map<Cid, Job>, job1: Job, d2: Disk,
                    jobs2: map<Cid, Job>, job2: Job)
    requires Passes(d0, jobs0, job0, d1, jobs1, job1) && Passes(d1, jobs1, job1, d2, jobs2, job2)
    ensures Passes(d0, jobs0, job0, d2, jobs2, job2)
  {
  }

  /** A checkpoint whose target cannot be had any more: it lists the target, its tree or one of its chunks as done, and
      that is not here. */
  ghost predicate Stuck(env: Env, d: Disk, jobs: map<Cid, Job>, target: Cid) {
    var job := Resumed(jobs, target);
    || (target in job.doneCommits && target !in d.commits)
    || (exists k :: k in TreeName(env, d, target) && k in job.doneTrees && k !in d.trees)
    || (exists k :: k in ChunkNames(env, d, target) && k in job.doneChunks && k !in d.chunks)
  }

  lemma StuckIsIncomplete(env: Env, d: Disk, jobs: map<Cid, Job>, target: Cid)
    requires Stuck(env, d, jobs, target)
    ensures !Complete(env, d, target)
  {
    hide CommitOf, TreeOf;
  }

  lemma StuckForAll(env: Env, d: Disk, jobs: map<Cid, Job>, d': Disk, target: Cid)
    requires Stuck(env, d, jobs, target) && Extends(d, d') && NotStored(d, d', Resumed(jobs, target))
    ensures !Complete(env, d', target)
  {
    hide CommitOf, TreeOf, Extends, NotStored, Stuck;
    StaysStuck(env, d, jobs, d', jobs, target);
    StuckIsIncomplete(env, d', jobs, target);
  }

  lemma HeadsNotStored(d: Disk, d': Disk, d'': Disk, job: Job)
    requires NotStored(d, d', job) && d'' == d'.(head := d''.head, heads := d''.heads)
    ensures NotStored(d, d'', job)
  {
  }

  /** The state of a job says nothing about what it lists. */
  lemma SameLists(d: Disk, d': Disk, job: Job, st: State)
    ensures NotStored(d, d', job.(state := st)) <==> NotStored(d, d', job)
    ensures forall other :: ListsAll(job.(state := st), other) <==> ListsAll(job, other)
  {
  }

  /** One chunk that was not listed is stored, and listed. */
  lemma ChunkPasses(d: Disk, jobs: map<Cid, Job>, job: Job, d': Disk, k: Cid)
    requires d' == d.(chunks := d'.chunks) && d'.chunks.Keys <= d.chunks.Keys + {k} && k !in job.doneChunks
    ensures var more := job.(doneChunks := job.doneChunks + {k});
            && Passes(d, jobs, job, d', jobs, job) && Passes(d, jobs, job, d', jobs, more)
            && Passes(d, jobs, job, d', jobs[job.target := more], more)
  {
  }

  lemma ListsItself(job: Job, st: State)
    ensures ListsAll(job, job) && ListsAll(job, job.(state := st))
  {
  }

  lemma ListsLater(job: Job, job': Job, st: State)
    requires ListsAll(job, job')
    ensures ListsAll(job, job'.(state := st))
  {
  }

  lemma SameHeads(d: Disk, target: Cid)
    ensures HeadsOk(d, d, target, false) && HeadsOk(d, d, target, true)
  {
  }

  lemma SameNotStored(d: Disk, d': Disk, job: Job)
    requires d' == d.(head := d'.head, heads := d'.heads)
    ensures NotStored(d, d', job)
  {
  }

  /** No fetch of the target gets it out of there. */
  lemma StaysStuck(env: Env, d: Disk, jobs: map<Cid, Job>, d': Disk, jobs': map<Cid, Job>, target: Cid)
    requires Stuck(env, d, jobs, target) && Extends(d, d')
    requires NotStored(d, d', Resumed(jobs, target)) && ListsAll(Resumed(jobs, target), Resumed(jobs', target))
    ensures Stuck(env, d', jobs', target)
  {
    hide CommitOf, TreeOf, Resumed;
    var job, job' := Resumed(jobs, target), Resumed(jobs', target);
    if target in job.doneCommits && target !in d.commits {
    } else if k :| k in TreeName(env, d, target) && k in job.doneTrees && k !in d.trees {
      assert k in TreeName(env, d', target) && k in job'.doneTrees && k !in d'.trees;
    } else {
      var k :| k in ChunkNames(env, d, target) && k in job.doneChunks && k !in d.chunks;
      ExtendsRestore(env, d, d', target);
      assert k in ChunkNames(env, d', target) && k in job'.doneChunks && k !in d'.chunks;
    }
  }

  datatype SyncResult = SyncResult(commits: nat, trees: nat, chunks: nat, headUpdated: bool)

  /** How a fetch can end without success; the errors say what they are about. */
  datatype SyncError =
    | NoPeers
    | Crashed
    | Unavailable(k: Cid)
    | BadCommit(k: Cid, data: bytes)
    | BadTree(k: Cid, data: bytes)
    | Lost(k: Cid)
    | TooDeep(seen: set<Cid>)
    | NotComplete

  // ---------------------------------------------------------------------------------------------
  // What a fetch is after
  // ---------------------------------------------------------------------------------------------

  ghost function Line(env: Env, d: Disk, target: Cid): set<Cid> {
    LiveCommits(env, d, {target})
  }

  /** The target, or a parent of a commit on disk that the target leads to. */
  ghost predicate WantedCommit(env: Env, d: Disk, target: Cid, k: Cid) {
    k == target || exists c :: c in Line(env, d, target) && IsParent(env, d, k, c)
  }

  /** The commit, its tree or one of its chunks. */
  ghost predicate Asked(env: Env, d: Disk, c: Cid, k: Cid) {
    k == c || k in TreeName(env, d, c) || k in ChunkNames(env, d, c)
  }

  /** Why visiting commit `c` ended with an error: every peer failed to give something of `c`, or one gave bytes that
      hash to the right name and are not such an object. */
  ghost predicate Explains(env: Env, log: seq<Exchange>, lo: nat, peers: seq<Peer>, d: Disk, c: Cid, e: SyncError) {
    match e
    case Unavailable(k) => Asked(env, d, c, k) && AllFailed(env.H, log, lo, peers, k)
    case BadCommit(k, data) => k == c && env.H(data) == k && !GoodObject(env, k, data)
        && FromPeer(log, lo, peers, k, data)
    case BadTree(k, data) => k in TreeName(env, d, c) && env.H(data) == k && TreeOf(env.H, k, data).Err?
        && FromPeer(log, lo, peers, k, data)
    case _ => false
  }

  lemma ExplainsLater(env: Env, log: seq<Exchange>, lo: nat, hi: nat, peers: seq<Peer>, d: Disk, c: Cid, e: SyncError)
    requires Explains(env, log, hi, peers, d, c, e) && lo <= hi
    ensures Explains(env, log, lo, peers, d, c, e)
  {
    hide Asked, GoodObject, TreeOf, TreeName, FromPeer, AllFailed;
    match e {
      case Unavailable(k) => AllFailedLater(env.H, log, lo, hi, peers, k);
      case BadCommit(k, data) => FromPeerLater(log, log, lo, hi, peers, k, data);
      case BadTree(k, data) => FromPeerLater(log, log, lo, hi, peers, k, data);
      case _ =>
    }
  }

  // ---------------------------------------------------------------------------------------------
  // Where new objects come from
  // ---------------------------------------------------------------------------------------------

  /** Every new object is the commit `c`, its tree or one of its chunks, and a peer gave it under its name. */
  ghost predicate Fetched(env: Env, log: seq<Exchange>, lo: nat, peers: seq<Peer>, d: Disk, d': Disk, c: Cid) {
    && (forall k :: k in d'.commits && k !in d.commits ==> k == c && FromPeer(log, lo, peers, k, d'.commits[k]))
    && (forall k :: k in d'.trees && k !in d.trees ==>
         k in TreeName(env, d', c) && FromPeer(log, lo, peers, k, d'.trees[k]))
    && (forall k :: k in d'.chunks && k !in d.chunks ==>
         k in ChunkNames(env, d', c) && FromPeer(log, lo, peers, k, d'.chunks[k]))
  }

  lemma NothingFetched(env: Env, log: seq<Exchange>, lo: nat, peers: seq<Peer>, d: Disk, c: Cid)
    ensures Fetched(env, log, lo, peers, d, d, c)
  {
  }

  lemma FetchedTwice(env: Env, log: seq<Exchange>, log': seq<Exchange>, lo: nat, hi: nat, peers: seq<Peer>, a: Disk,
                     b: Disk, d: Disk, c: Cid)
    requires Fetched(env, log, lo, peers, a, b, c) && Fetched(env, log', hi, peers, b, d, c)
    requires log <= log' && lo <= hi && OnlyGrew(a, b) && OnlyGrew(b, d)
    ensures Fetched(env, log', lo, peers, a, d, c)
  {
    hide TreeName, ChunkNames, FromPeer;
    NamesGrow(env, b, d, c);
    forall k | k in d.commits && k !in a.commits ensures k == c && FromPeer(log', lo, peers, k, d.commits[k]) {
      if k in b.commits { FromPeerLater(log, log', lo, lo, peers, k, b.commits[k]); }
      else { FromPeerLater(log', log', lo, hi, peers, k, d.commits[k]); }
    }
    forall k | k in d.trees && k !in a.trees
      ensures k in TreeName(env, d, c) && FromPeer(log', lo, peers, k, d.trees[k])
    {
      if k in b.trees { FromPeerLater(log, log', lo, lo, peers, k, b.trees[k]); }
      else { FromPeerLater(log', log', lo, hi, peers, k, d.trees[k]); }
    }
    forall k | k in d.chunks && k !in a.chunks
      ensures k in ChunkNames(env, d, c) && FromPeer(log', lo, peers, k, d.chunks[k])
    {
      if k in b.chunks { FromPeerLater(log, log', lo, lo, peers, k, b.chunks[k]); }
      else { FromPeerLater(log', log', lo, hi, peers, k, d.chunks[k]); }
    }
  }

  /** What a commit names, it names on any larger disk. */
  lemma NamesGrow(env: Env, d: Disk, d': Disk, c: Cid)
    requires OnlyGrew(d, d')
    ensures TreeName(env, d, c) <= TreeName(env, d', c) && ChunkNames(env, d, c) <= ChunkNames(env, d', c)
  {
    hide CommitOf, TreeOf;
  }

  /** Every new object was wanted, a commit as the target or a parent on its line, a tree or chunk by a commit on the
      line, and a peer gave it under its name. */
  ghost predicate Sourced(env: Env, log: seq<Exchange>, lo: nat, peers: seq<Peer>, d: Disk, d': Disk, target: Cid) {
    && (forall k :: k in d'.commits && k !in d.commits ==>
         WantedCommit(env, d', target, k) && FromPeer(log, lo, peers, k, d'.commits[k]))
    && (forall k :: k in d'.trees && k !in d.trees ==>
         WantedTree(env, d', target, k) && FromPeer(log, lo, peers, k, d'.trees[k]))
    && (forall k :: k in d'.chunks && k !in d.chunks ==>
         WantedChunk(env, d', target, k) && FromPeer(log, lo, peers, k, d'.chunks[k]))
  }

  ghost predicate WantedTree(env: Env, d: Disk, target: Cid, k: Cid) {
    exists c :: c in Line(env, d, target) && k in TreeName(env, d, c)
  }

  ghost predicate WantedChunk(env: Env, d: Disk, target: Cid, k: Cid) {
    exists c :: c in Line(env, d, target) && k in ChunkNames(env, d, c)
  }

  lemma NothingSourced(env: Env, log: seq<Exchange>, lo: nat, peers: seq<Peer>, d: Disk, target: Cid)
    ensures Sourced(env, log, lo, peers, d, d, target)
  {
  }

  lemma WantedGrows(env: Env, d: Disk, d': Disk, target: Cid, k: Cid)
    requires OnlyGrew(d, d')
    ensures WantedCommit(env, d, target, k) ==> WantedCommit(env, d', target, k)
    ensures WantedTree(env, d, target, k) ==> WantedTree(env, d', target, k)
    ensures WantedChunk(env, d, target, k) ==> WantedChunk(env, d', target, k)
  {
    hide CommitOf, TreeOf, Line, TreeName, ChunkNames;
    GrownLine(env, d, d', target);
    if WantedCommit(env, d, target, k) && k != target {
      var c :| c in Line(env, d, target) && IsParent(env, d, k, c);
      assert IsParent(env, d', k, c);
    }
    if WantedTree(env, d, target, k) {
      var c :| c in Line(env, d, target) && k in TreeName(env, d, c);
      NamesGrow(env, d, d', c);
    }
    if WantedChunk(env, d, target, k) {
      var c :| c in Line(env, d, target) && k in ChunkNames(env, d, c);
      NamesGrow(env, d, d', c);
    }
  }

  /** A visit to a wanted commit fetches wanted objects. */
  lemma SourcedVisit(env: Env, log: seq<Exchange>, log': seq<Exchange>, lo: nat, peers: seq<Peer>, a: Disk, b: Disk,
                     d: Disk, target: Cid, c: Cid)
    requires Sourced(env, log, lo, peers, a, b, target) && Fetched(env, log', |log|, peers, b, d, c)
    requires log <= log' && lo <= |log| && OnlyGrew(a, b) && OnlyGrew(b, d) && WantedCommit(env, d, target, c)
    ensures Sourced(env, log', lo, peers, a, d, target)
  {
    hide TreeName, ChunkNames, FromPeer, WantedCommit, WantedTree, WantedChunk;
    forall k | k in d.commits && k !in a.commits
      ensures WantedCommit(env, d, target, k) && FromPeer(log', lo, peers, k, d.commits[k])
    {
      WantedGrows(env, b, d, target, k);
      if k in b.commits { FromPeerLater(log, log', lo, lo, peers, k, b.commits[k]); }
      else { FromPeerLater(log', log', lo, |log|, peers, k, d.commits[k]); }
    }
    forall k | k in d.trees && k !in a.trees
      ensures WantedTree(env, d, target, k) && FromPeer(log', lo, peers, k, d.trees[k])
    {
      WantedGrows(env, b, d, target, k);
      if k in b.trees { FromPeerLater(log, log', lo, lo, peers, k, b.trees[k]); }
      else { AskedIsWanted(env, d, target, c, k); FromPeerLater(log', log', lo, |log|, peers, k, d.trees[k]); }
    }
    forall k | k in d.chunks && k !in a.chunks
      ensures WantedChunk(env, d, target, k) && FromPeer(log', lo, peers, k, d.chunks[k])
    {
      WantedGrows(env, b, d, target, k);
      if k in b.chunks { FromPeerLater(log, log', lo, lo, peers, k, b.chunks[k]); }
      else { AskedIsWanted(env, d, target, c, k); FromPeerLater(log', log', lo, |log|, peers, k, d.chunks[k]); }
    }
  }

  lemma AskedIsWanted(env: Env, d: Disk, target: Cid, c: Cid, k: Cid)
    requires WantedCommit(env, d, target, c)
    ensures k in TreeName(env, d, c) ==> WantedTree(env, d, target, k)
    ensures k in ChunkNames(env, d, c) ==> WantedChunk(env, d, target, k)
  {
    hide CommitOf, TreeOf, Line;
    if c in d.commits { WantedIsOnLine(env, d, target, c); }
  }

  lemma SourcedHeads(env: Env, log: seq<Exchange>, lo: nat, peers: seq<Peer>, a: Disk, d: Disk, d': Disk, target: Cid)
    requires Sourced(env, log, lo, peers, a, d, target) && d' == d.(head := d'.head, heads := d'.heads)
    ensures Sourced(env, log, lo, peers, a, d', target)
  {
    hide WantedCommit, WantedTree, WantedChunk, FromPeer;
    forall k
      ensures WantedCommit(env, d, target, k) ==> WantedCommit(env, d', target, k)
    {
      SameWanted(env, d, d', target, k);
    }
    forall k
      ensures WantedTree(env, d, target, k) ==> WantedTree(env, d', target, k)
    {
      SameWanted(env, d, d', target, k);
    }
    forall k
      ensures WantedChunk(env, d, target, k) ==> WantedChunk(env, d', target, k)
    {
      SameWanted(env, d, d', target, k);
    }
  }

  lemma SameWanted(env: Env, d: Disk, d': Disk, target: Cid, k: Cid)
    requires d' == d.(head := d'.head, heads := d'.heads)
    ensures WantedCommit(env, d, target, k) ==> WantedCommit(env, d', target, k)
    ensures WantedTree(env, d, target, k) ==> WantedTree(env, d', target, k)
    ensures WantedChunk(env, d, target, k) ==> WantedChunk(env, d', target, k)
  {
    hide CommitOf, TreeOf, Line;
    SameLine(env, d, d', target);
    if WantedCommit(env, d, target, k) && k != target {
      var c :| c in Line(env, d, target) && IsParent(env, d, k, c);
      assert IsParent(env, d', k, c);
    }
    if WantedTree(env, d, target, k) {
      var c :| c in Line(env, d, target) && k in TreeName(env, d, c);
      assert k in TreeName(env, d', c);
    }
    if WantedChunk(env, d, target, k) {
      var c :| c in Line(env, d, target) && k in ChunkNames(env, d, c);
      assert k in ChunkNames(env, d', c);
    }
  }

  lemma SameLine(env: Env, d: Disk, d': Disk, target: Cid)
    requires d'.commits == d.commits
    ensures Line(env, d', target) == Line(env, d, target)
  {
    SameCommits(env, d, d');
  }

  /** Every commit in the set is complete and has its parents in the set. */
  ghost predicate WholeSet(env: Env, d: Disk, s: set<Cid>) {
    forall c :: c in s ==> Complete(env, d, c) && forall q :: IsParent(env, d, q, c) ==> q in s
  }

  /** The commit and all its ancestors are here with their trees and chunks. */
  ghost predicate Whole(env: Env, d: Disk, c: Cid) {
    exists s :: c in s && WholeSet(env, d, s)
  }

  // ---------------------------------------------------------------------------------------------
  // The worklist
  // ---------------------------------------------------------------------------------------------

  /** The work so far leads from the target to everything visited and queued, and nothing on the way is dropped. */
  ghost predicate Tracked(env: Env, d: Disk, target: Cid, visited: set<Cid>, queue: seq<Cid>) {
    && (forall c :: c in visited ==> c in Line(env, d, target))
    && (forall c :: c in queue ==> WantedCommit(env, d, target, c))
    && (target in visited || target in queue)
    && (forall c, q :: c in visited && IsParent(env, d, q, c) ==> q in visited || q in queue)
  }

  ghost predicate AllComplete(env: Env, d: Disk, visited: set<Cid>) {
    forall c :: c in visited ==> Complete(env, d, c)
  }

  lemma GrownLine(env: Env, d: Disk, d': Disk, target: Cid)
    requires Extends(d, d')
    ensures Line(env, d, target) <= Line(env, d', target) && Line(env, d, target) <= d.commits.Keys
    ensures forall c :: c in d.commits ==> LoadCommit(env, d', c) == LoadCommit(env, d, c)
  {
    hide CommitOf, Reachable;
    ClosureGrows(GraphOf(env, d), GraphOf(env, d'), {target});
  }

  lemma GrownTracked(env: Env, d: Disk, d': Disk, target: Cid, visited: set<Cid>, queue: seq<Cid>)
    requires Tracked(env, d, target, visited, queue) && Extends(d, d')
    ensures Tracked(env, d', target, visited, queue)
    ensures AllComplete(env, d, visited) ==> AllComplete(env, d', visited)
  {
    hide CommitOf, TreeOf, Line, Restore, HasChunks;
    GrownLine(env, d, d', target);
    forall c | c in queue ensures WantedCommit(env, d', target, c) {
      if c != target {
        var x :| x in Line(env, d, target) && IsParent(env, d, c, x);
        assert IsParent(env, d', c, x);
      }
    }
    if AllComplete(env, d, visited) {
      forall c | c in visited ensures Complete(env, d', c) {
        ExtendsRestore(env, d, d', c);
      }
    }
  }

  /** A wanted commit that is here lies on the line. */
  lemma WantedIsOnLine(env: Env, d: Disk, target: Cid, c: Cid)
    requires WantedCommit(env, d, target, c) && c in d.commits
    ensures c in Line(env, d, target)
  {
    hide CommitOf, Closure;
    var g := GraphOf(env, d);
    if c == target {
      RootReachable(g, {target}, c);
    } else {
      var x :| x in Line(env, d, target) && IsParent(env, d, c, x);
      ParentReachable(g, {target}, x, c);
    }
  }

  /** A commit taken from the queue and fetched is visited, and its parents join the queue. */
  lemma TrackVisit(env: Env, d: Disk, target: Cid, visited: set<Cid>, queue: seq<Cid>, c: Cid)
    requires queue != [] && queue[0] == c && Tracked(env, d, target, visited, queue) && LoadCommit(env, d, c).Ok?
    ensures Tracked(env, d, target, visited + {c}, queue[1..] + LoadCommit(env, d, c).value.parents)
  {
    hide CommitOf, Line;
    var parents, rest := LoadCommit(env, d, c).value.parents, queue[1..];
    WantedIsOnLine(env, d, target, c);
    assert queue == [c] + rest;
    forall q | q in rest + parents ensures WantedCommit(env, d, target, q) {
      if q in parents { assert IsParent(env, d, q, c); }
    }
    forall x, q | x in visited + {c} && IsParent(env, d, q, x) ensures q in visited + {c} || q in rest + parents {
    }
  }

  lemma TrackSkip(env: Env, d: Disk, target: Cid, visited: set<Cid>, queue: seq<Cid>)
    requires queue != [] && queue[0] in visited && Tracked(env, d, target, visited, queue)
    ensures Tracked(env, d, target, visited, queue[1..])
  {
    hide LoadCommit, Line;
    assert queue == [queue[0]] + queue[1..];
  }

  /** With nothing left to do, what was visited is the target and all its ancestors. */
  lemma TrackEnd(env: Env, d: Disk, target: Cid, visited: set<Cid>)
    requires Tracked(env, d, target, visited, []) && AllComplete(env, d, visited)
    ensures Whole(env, d, target)
  {
    hide LoadCommit, Complete, Line;
    assert WholeSet(env, d, visited);
  }

  lemma TrackStart(env: Env, d: Disk, target: Cid)
    ensures Tracked(env, d, target, {}, [target])
    ensures AllComplete(env, d, {})
  {
    hide Line, LoadCommit;
  }

  lemma OneIsComplete(env: Env, d: Disk, visited: set<Cid>, c: Cid)
    requires AllComplete(env, d, visited) && c in visited
    ensures Complete(env, d, c)
  {
  }

  lemma QueueIsWanted(env: Env, d: Disk, target: Cid, visited: set<Cid>, queue: seq<Cid>)
    requires Tracked(env, d, target, visited, queue) && queue != []
    ensures WantedCommit(env, d, target, queue[0])
  {
    hide WantedCommit, Line, IsParent;
  }

  lemma OnlyGrewExtends(d: Disk, d': Disk)
    requires OnlyGrew(d, d')
    ensures Extends(d, d')
  {
  }

  lemma OneMoreComplete(env: Env, d: Disk, visited: set<Cid>, c: Cid)
    requires AllComplete(env, d, visited) && Complete(env, d, c)
    ensures AllComplete(env, d, visited + {c})
  {
    hide Complete;
  }

  /** What each error means; `trusty` says whether the checkpoints were right when the fetch began. */
  ghost predicate Blamed(env: Env, log: seq<Exchange>, lo: nat, peers: seq<Peer>, d: Disk, target: Cid, trusty: bool,
                         e: SyncError) {
    match e
    case NoPeers => peers == []
    case Crashed => true
    case Lost(_) => !trusty
    case NotComplete => !trusty
    case TooDeep(seen) => |seen| > MAX_JOB_COMMITS && seen <= Line(env, d, target)
    case _ => exists c :: WantedCommit(env, d, target, c) && Explains(env, log, lo, peers, d, c, e)
  }

  lemma TooDeepIsBlamed(env: Env, log: seq<Exchange>, lo: nat, peers: seq<Peer>, d: Disk, target: Cid,
                        visited: set<Cid>, queue: seq<Cid>, trusty: bool)
    requires Tracked(env, d, target, visited, queue) && |visited| > MAX_JOB_COMMITS
    ensures Blamed(env, log, lo, peers, d, target, trusty, TooDeep(visited))
  {
    hide Line, WantedCommit, IsParent;
  }

  lemma VisitIsBlamed(env: Env, log: seq<Exchange>, lo: nat, hi: nat, peers: seq<Peer>, d: Disk, target: Cid,
                      visited: set<Cid>, queue: seq<Cid>, trusty: bool, e: SyncError)
    requires queue != [] && Tracked(env, d, target, visited, queue) && lo <= hi
    requires e.Lost? ==> !trusty
    requires e != Crashed && !e.Lost? ==> Explains(env, log, hi, peers, d, queue[0], e)
    ensures Blamed(env, log, lo, peers, d, target, trusty, e)
    ensures e != Crashed && !e.Lost? ==> Explains(env, log, lo, peers, d, queue[0], e)
  {
    hide Line, WantedCommit, IsParent, Asked, GoodObject, TreeOf, FromPeer, AllFailed, TreeName;
    if e != Crashed && !e.Lost? { ExplainsLater(env, log, lo, hi, peers, d, queue[0], e); }
  }

  const TURNS: nat := 1 + MAX_COMMIT_PARENTS * (MAX_JOB_COMMITS + 1)

  lemma BlamedAnyway(env: Env, log: seq<Exchange>, lo: nat, peers: seq<Peer>, d: Disk, target: Cid, trusty: bool,
                     began: bool, e: SyncError)
    requires Blamed(env, log, lo, peers, d, target, trusty, e) && (began ==> trusty)
    ensures Blamed(env, log, lo, peers, d, target, began, e)
  {
    hide WantedCommit, Explains, Line;
  }

  /** The errors after the walk. */
  lemma LateErrors(env: Env, log: seq<Exchange>, lo: nat, peers: seq<Peer>, d: Disk, target: Cid, trusty: bool)
    ensures Blamed(env, log, lo, peers, d, target, trusty, Crashed)
    ensures !trusty ==> Blamed(env, log, lo, peers, d, target, trusty, NotComplete)
    ensures peers == [] ==> Blamed(env, log, lo, peers, d, target, trusty, NoPeers)
  {
  }

  /** HEAD and HEADS are as before, or HEAD has moved to the target and HEADS may have gained it. */
  predicate HeadsOk(d: Disk, d': Disk, target: Cid, may: bool) {
    && d'.registry == d.registry
    && (|| (d'.head == d.head && d'.heads == d.heads)
        || (may && d'.head == Some(target) && (d'.heads == d.heads || d'.heads == d.heads + {target})))
  }

  lemma WholeIsComplete(env: Env, d: Disk, c: Cid)
    requires Whole(env, d, c)
    ensures Complete(env, d, c)
  {
    hide Complete, IsParent;
  }

  /** What is whole stays whole when objects are added. */
  lemma WholeGrows(env: Env, d: Disk, d': Disk, c: Cid)
    requires Whole(env, d, c) && Extends(d, d')
    ensures Whole(env, d', c)
  {
    hide CommitOf, TreeOf, HasChunks, Restore;
    var s :| c in s && WholeSet(env, d, s);
    forall x | x in s ensures Complete(env, d', x) && forall q :: IsParent(env, d', q, x) ==> q in s {
      ExtendsRestore(env, d, d', x);
      assert forall q :: IsParent(env, d', q, x) ==> IsParent(env, d, q, x);
    }
    assert WholeSet(env, d', s);
  }

  lemma SameButHeads(env: Env, d: Disk, d': Disk, c: Cid)
    requires d' == d.(head := d'.head, heads := d'.heads)
    ensures Extends(d, d')
    ensures Complete(env, d', c) == Complete(env, d, c)
    ensures Whole(env, d', c) <==> Whole(env, d, c)
  {
    hide CommitOf, TreeOf, HasChunks, Whole;
    if Whole(env, d, c) { WholeGrows(env, d, d', c); }
    if Whole(env, d', c) { WholeGrows(env, d', d, c); }
  }

  // ---------------------------------------------------------------------------------------------
  // The engine
  // ---------------------------------------------------------------------------------------------

  /** What one visit found and stored. */
  datatype Gain = Gain(parents: seq<Cid>, commits: nat, trees: nat, chunks: nat)

  class Engine {
    const vault: Vault
    const net: Net
    /** The checkpoints on disk. */
    var jobs: map<Cid, Job>
    /** The job in memory. */
    var job: Job
    /** How many more writes to disk happen before the process dies, if it does. */
    var life: Option<nat>

    constructor (vault: Vault, net: Net, jobs: map<Cid, Job>, life: Option<nat>)
      requires vault.Valid()
      ensures this.vault == vault && this.net == net && this.jobs == jobs && this.life == life && Valid()
    {
      hide StoreOk, Trusted, Represents, IsClash;
      this.vault, this.net, this.jobs, this.life := vault, net, jobs, life;
      job := NewJob(ZERO);
    }

    ghost predicate Valid()
      reads this, vault
    {
      vault.Valid()
    }

    ghost predicate JobsOk()
      reads this, vault
    {
      forall t :: t in jobs ==> JobOk(vault.disk, jobs[t])
    }

    /** No checkpoint, on disk or in memory, claims anything that is not there. */
    ghost predicate Trusty()
      reads this, vault
    {
      JobsOk() && JobOk(vault.disk, job)
    }

    /** One write to disk: it happens, or the process dies before it. */
    method Write() returns (alive: bool)
      modifies this`life
      ensures alive <==> old(life) != Some(0)
      ensures life == if old(life).Some? && alive then Some(old(life).value - 1) else old(life)
    {
      alive := life != Some(0);
      if alive && life.Some? { life := Some(life.value - 1); }
    }

    /** `load_or_create_job` */
    method LoadJob(target: Cid)
      modifies this`job
      ensures job == Resumed(jobs, target)
      ensures job.target == target && job.state != Done
      ensures target in jobs && jobs[target].target == target && jobs[target].state != Done ==> job == jobs[target]
      ensures job.doneCommits + job.doneTrees + job.doneChunks != {} ==> target in jobs && job == jobs[target]
      ensures old(JobsOk()) ==> Trusty()
    {
      job := NewJob(target);
      if target in jobs && jobs[target].target == target && jobs[target].state != Done {
        job := jobs[target];
      }
    }

    /** `persist_job` */
    method Persist() returns (alive: bool)
      modifies this`jobs, this`life
      ensures jobs == if alive then old(jobs)[job.target := job] else old(jobs)
      ensures (life.Some? <==> old(life).Some?) && (!alive ==> old(life).Some?)
      ensures old(Trusty()) ==> Trusty()
    {
      alive := Write();
      if alive { jobs := jobs[job.target := job]; }
    }

    /** The commit part of a visit. */
    method FetchCommit(peers: seq<Peer>, c: Cid) returns (r: Result<nat, SyncError>)
      requires Valid()
      modifies this`jobs, this`job, this`life, vault`disk, vault`clash, net
      ensures Valid() && OnlyGrew(old(vault.disk), vault.disk) && vault.clash == old(vault.clash)
      ensures Passes(old(vault.disk), old(jobs), old(job), vault.disk, jobs, job)
      ensures old(Trusty()) ==> Trusty()
      ensures vault.disk == old(vault.disk).(commits := vault.disk.commits)
      ensures r.Ok? ==> |vault.disk.commits| == |old(vault.disk).commits| + r.value
      ensures r.Ok? && old(Trusty()) ==> c in vault.disk.commits
      ensures r.Ok? ==> c in job.doneCommits
      ensures r.Err? && r.error != Crashed ==>
                Explains(vault.env, net.log, |old(net.log)|, peers, vault.disk, c, r.error)
      ensures Continued(net.answers, old(net.log), net.log)
                && Fetched(vault.env, net.log, |old(net.log)|, peers, old(vault.disk), vault.disk, c)
      ensures (life.Some? <==> old(life).Some?) && (r == Err(Crashed) ==> old(life).Some?)
    {
      hide StoreOk, Trusted, Represents, GoodObject, CommitOf, FirstGood, IsClash, Extends, JobOk, Explains, Fetched;
      SameGrew(vault.disk);
      NothingFetched(vault.env, net.log, |net.log|, peers, vault.disk, c);
      ghost var before := vault.disk;
      NothingPasses(before, jobs, job);
      if c in job.doneCommits {
        if Trusty() { DoneIsThere(vault.disk, job); }
        return Ok(0);
      }
      var n := 0;
      if c !in vault.disk.commits {
        var got := GetCommit(peers, c);
        if got.Err? { return Err(got.error); }
        CommitNotListed(vault.env, net.log, |old(net.log)|, peers, before, vault.disk, c, job);
        n := 1;
      }
      AddDone(vault.disk, job, c);
      job := job.(doneCommits := job.doneCommits + {c});
      var alive := Persist();
      r := if alive then Ok(n) else Err(Crashed);
    }

    /** Fetch and import a commit that is not here. */
    method GetCommit(peers: seq<Peer>, c: Cid) returns (r: Result<(), SyncError>)
      requires Valid() && c !in vault.disk.commits
      modifies this`life, vault`disk, vault`clash, net
      ensures Valid() && OnlyGrew(old(vault.disk), vault.disk) && vault.clash == old(vault.clash)
      ensures old(Trusty()) ==> Trusty()
      ensures vault.disk == old(vault.disk).(commits := vault.disk.commits)
      ensures r.Ok? ==> c in vault.disk.commits && |vault.disk.commits| == |old(vault.disk).commits| + 1
      ensures r.Err? ==> vault.disk == old(vault.disk)
      ensures r.Err? && r.error != Crashed ==>
                Explains(vault.env, net.log, |old(net.log)|, peers, vault.disk, c, r.error)
      ensures Continued(net.answers, old(net.log), net.log)
                && Fetched(vault.env, net.log, |old(net.log)|, peers, old(vault.disk), vault.disk, c)
      ensures (life.Some? <==> old(life).Some?) && (r == Err(Crashed) ==> old(life).Some?)
    {
      hide Admissible, StoreOk, Trusted, Represents, GoodObject, CommitOf, FirstGood, IsClash, JobOk, FromPeer,
        AllFailed, Fetched;
      SameGrew(vault.disk);
      ghost var lo := |net.log|;
      var got := net.GetBlob(vault.env.H, peers, c);
      NothingFetched(vault.env, net.log, lo, peers, vault.disk, c);
      if got.None? { return Err(Unavailable(c)); }
      if !GoodObject(vault.env, c, got.value.1) { return Err(BadCommit(c, got.value.1)); }
      var alive := Write();
      if !alive { return Err(Crashed); }
      ghost var before := vault.disk;
      var put := vault.ImportCommit(c, got.value.1);
      OneMore(before.commits, c, got.value.1);
      CommitFetched(vault.env, net.log, lo, peers, before, vault.disk, c, got.value.1);
      GrownJobs(before, vault.disk, jobs, job);
      r := Ok(());
    }

    /** The tree part of a visit; `tree` is what commit `c` names. */
    method FetchTree(peers: seq<Peer>, c: Cid, tree: Cid) returns (r: Result<nat, SyncError>)
      requires Valid() && tree in TreeName(vault.env, vault.disk, c)
      modifies this`jobs, this`job, this`life, vault`disk, vault`clash, net
      ensures Valid() && OnlyGrew(old(vault.disk), vault.disk) && vault.clash == old(vault.clash)
      ensures Passes(old(vault.disk), old(jobs), old(job), vault.disk, jobs, job)
      ensures old(Trusty()) ==> Trusty()
      ensures vault.disk == old(vault.disk).(trees := vault.disk.trees)
      ensures r.Ok? ==> |vault.disk.trees| == |old(vault.disk).trees| + r.value
      ensures r.Ok? && old(Trusty()) ==> tree in vault.disk.trees
      ensures r.Err? && r.error != Crashed ==>
                Explains(vault.env, net.log, |old(net.log)|, peers, vault.disk, c, r.error)
      ensures Continued(net.answers, old(net.log), net.log)
                && Fetched(vault.env, net.log, |old(net.log)|, peers, old(vault.disk), vault.disk, c)
      ensures (life.Some? <==> old(life).Some?) && (r == Err(Crashed) ==> old(life).Some?)
    {
      hide StoreOk, Trusted, Represents, GoodObject, CommitOf, TreeOf, FirstGood, IsClash, Extends, JobOk, TreeName,
        Explains, Fetched;
      SameGrew(vault.disk);
      NothingFetched(vault.env, net.log, |net.log|, peers, vault.disk, c);
      ghost var before := vault.disk;
      NothingPasses(before, jobs, job);
      if tree in job.doneTrees {
        if Trusty() { DoneIsThere(vault.disk, job); }
        return Ok(0);
      }
      var n := 0;
      if tree !in vault.disk.trees {
        var got := GetTree(peers, c, tree);
        if got.Err? { return Err(got.error); }
        TreeNotListed(vault.env, net.log, |old(net.log)|, peers, before, vault.disk, c, tree, job);
        n := 1;
      }
      AddDone(vault.disk, job, tree);
      job := job.(doneTrees := job.doneTrees + {tree});
      var alive := Persist();
      r := if alive then Ok(n) else Err(Crashed);
    }

    /** Fetch and import a tree that is not here. */
    method GetTree(peers: seq<Peer>, c: Cid, tree: Cid) returns (r: Result<(), SyncError>)
      requires Valid() && tree !in vault.disk.trees && tree in TreeName(vault.env, vault.disk, c)
      modifies this`life, vault`disk, vault`clash, net
      ensures Valid() && OnlyGrew(old(vault.disk), vault.disk) && vault.clash == old(vault.clash)
      ensures old(Trusty()) ==> Trusty()
      ensures vault.disk == old(vault.disk).(trees := vault.disk.trees)
      ensures r.Ok? ==> tree in vault.disk.trees && |vault.disk.trees| == |old(vault.disk).trees| + 1
      ensures r.Err? ==> vault.disk == old(vault.disk)
      ensures r.Err? && r.error != Crashed ==>
                Explains(vault.env, net.log, |old(net.log)|, peers, vault.disk, c, r.error)
      ensures Continued(net.answers, old(net.log), net.log)
                && Fetched(vault.env, net.log, |old(net.log)|, peers, old(vault.disk), vault.disk, c)
      ensures (life.Some? <==> old(life).Some?) && (r == Err(Crashed) ==> old(life).Some?)
    {
      hide StoreOk, Trusted, Represents, GoodObject, CommitOf, TreeOf, FirstGood, IsClash, JobOk, TreeName, FromPeer,
        AllFailed, Fetched;
      SameGrew(vault.disk);
      ghost var lo := |net.log|;
      var got := net.GetBlob(vault.env.H, peers, tree);
      NothingFetched(vault.env, net.log, lo, peers, vault.disk, c);
      if got.None? { return Err(Unavailable(tree)); }
      if TreeOf(vault.env.H, tree, got.value.1).Err? { return Err(BadTree(tree, got.value.1)); }
      var alive := Write();
      if !alive { return Err(Crashed); }
      ghost var before := vault.disk;
      var put := vault.ImportTree(tree, got.value.1);
      OneMore(before.trees, tree, got.value.1);
      TreeFetched(vault.env, net.log, lo, peers, before, vault.disk, c, tree, got.value.1);
      GrownJobs(before, vault.disk, jobs, job);
      r := Ok(());
    }

    /** The chunk loop of a visit. The job is checkpointed at every multiple of 32 chunks, so that the checkpoint lags
        by no more than the rest, and a crash loses the record of at most 32. */
    method FetchChunks(peers: seq<Peer>, c: Cid, ids: seq<Cid>) returns (r: Result<nat, SyncError>)
      requires Valid() && forall k :: k in ids ==> k in ChunkNames(vault.env, vault.disk, c)
      modifies this`jobs, this`job, this`life, vault`disk, net
      ensures Valid() && OnlyGrew(old(vault.disk), vault.disk)
      ensures Passes(old(vault.disk), old(jobs), old(job), vault.disk, jobs, job)
      ensures old(Trusty()) ==> Trusty()
      ensures vault.disk == old(vault.disk).(chunks := vault.disk.chunks)
      ensures r.Ok? ==> |vault.disk.chunks| == |old(vault.disk).chunks| + r.value
      ensures r.Ok? && old(Trusty()) ==> forall k :: k in ids ==> k in vault.disk.chunks
      ensures old(Recent(jobs, job)) ==> if r == Err(Crashed) then Lag(jobs, job) <= 32 else Recent(jobs, job)
      ensures r.Err? && r.error != Crashed ==>
                Explains(vault.env, net.log, |old(net.log)|, peers, vault.disk, c, r.error)
      ensures Continued(net.answers, old(net.log), net.log)
                && Fetched(vault.env, net.log, |old(net.log)|, peers, old(vault.disk), vault.disk, c)
      ensures (life.Some? <==> old(life).Some?) && (r == Err(Crashed) ==> old(life).Some?)
    {
      hide StoreOk, Trusted, Represents, Explains, IsClash, Trusty, ChunkNames, Extends, Fetched, Recent, Lag,
        Continued, Passes;
      SameGrew(vault.disk);
      ghost var log0, lo := net.log, |net.log|;
      NothingFetched(vault.env, net.log, lo, peers, vault.disk, c);
      ContinuedHere(net.answers, net.log);
      NothingPasses(vault.disk, jobs, job);
      var n := 0;
      for i := 0 to |ids|
        invariant Valid() && OnlyGrew(old(vault.disk), vault.disk)
        invariant Passes(old(vault.disk), old(jobs), old(job), vault.disk, jobs, job)
        invariant old(Trusty()) ==> Trusty()
        invariant vault.disk == old(vault.disk).(chunks := vault.disk.chunks)
        invariant |vault.disk.chunks| == |old(vault.disk).chunks| + n
        invariant old(Trusty()) ==> forall j :: 0 <= j < i ==> ids[j] in vault.disk.chunks
        invariant Continued(net.answers, log0, net.log)
                  && Fetched(vault.env, net.log, lo, peers, old(vault.disk), vault.disk, c)
        invariant life.Some? <==> old(life).Some?
        invariant old(Recent(jobs, job)) ==> Recent(jobs, job)
      {
        ghost var before, log, jobs1, job1 := vault.disk, net.log, jobs, job;
        SameChunkNames(vault.env, old(vault.disk), before, c);
        var one := FetchChunk(peers, c, ids[i]);
        LogGrows(net.answers, log0, log);
        LogGrows(net.answers, log, net.log);
        ContinuedTwice(net.answers, log0, log, net.log);
        FetchedTwice(vault.env, log, net.log, lo, |log|, peers, old(vault.disk), before, vault.disk, c);
        OnlyGrewTwice(old(vault.disk), before, vault.disk);
        ChunksStay(before, vault.disk);
        PassesTwice(old(vault.disk), old(jobs), old(job), before, jobs1, job1, vault.disk, jobs, job);
        if one.Err? {
          if one.error != Crashed { ExplainsLater(vault.env, net.log, lo, |log|, peers, vault.disk, c, one.error); }
          return Err(one.error);
        }
        n := n + one.value;
      }
      r := Ok(n);
    }

    /** One turn of the chunk loop. */
    method FetchChunk(peers: seq<Peer>, c: Cid, k: Cid) returns (r: Result<nat, SyncError>)
      requires Valid() && k in ChunkNames(vault.env, vault.disk, c)
      modifies this`jobs, this`job, this`life, vault`disk, net
      ensures Valid() && OnlyGrew(old(vault.disk), vault.disk)
      ensures Passes(old(vault.disk), old(jobs), old(job), vault.disk, jobs, job)
      ensures old(Trusty()) ==> Trusty()
      ensures vault.disk == old(vault.disk).(chunks := vault.disk.chunks)
      ensures r.Ok? ==> |vault.disk.chunks| == |old(vault.disk).chunks| + r.value
      ensures r.Ok? && old(Trusty()) ==> k in vault.disk.chunks
      ensures old(Recent(jobs, job)) ==> if r == Err(Crashed) then Lag(jobs, job) <= 32 else Recent(jobs, job)
      ensures r.Err? && r.error != Crashed ==>
                Explains(vault.env, net.log, |old(net.log)|, peers, vault.disk, c, r.error)
      ensures Continued(net.answers, old(net.log), net.log)
                && Fetched(vault.env, net.log, |old(net.log)|, peers, old(vault.disk), vault.disk, c)
      ensures (life.Some? <==> old(life).Some?) && (r == Err(Crashed) ==> old(life).Some?)
    {
      hide StoreOk, Trusted, Represents, Explains, IsClash, JobOk, ChunkNames, Extends, Fetched, Recent, Passes,
        Continued, Lag;
      SameGrew(vault.disk);
      NothingFetched(vault.env, net.log, |net.log|, peers, vault.disk, c);
      ghost var before := vault.disk;
      NothingPasses(before, jobs, job);
      ContinuedHere(net.answers, net.log);
      if k in job.doneChunks {
        if Trusty() { DoneIsThere(vault.disk, job); }
        return Ok(0);
      }
      var n := 0;
      if k !in vault.disk.chunks {
        var got := GetChunk(peers, c, k);
        if Recent(jobs, job) { RecentLags(jobs, job); }
        if got.Err? {
          ChunkPasses(before, jobs, job, vault.disk, k);
          return Err(got.error);
        }
        n := 1;
      }
      AddDone(vault.disk, job, k);
      ChunkPasses(before, jobs, job, vault.disk, k);
      if Recent(jobs, job) { RecentAdds(jobs, job, k); }
      job := job.(doneChunks := job.doneChunks + {k});
      if |job.doneChunks| % 32 == 0 {
        var alive := Persist();
        if !alive { return Err(Crashed); }
      }
      r := Ok(n);
    }

    /** Fetch and import a chunk that is not here. */
    method GetChunk(peers: seq<Peer>, c: Cid, k: Cid) returns (r: Result<(), SyncError>)
      requires Valid() && k !in vault.disk.chunks && k in ChunkNames(vault.env, vault.disk, c)
      modifies this`life, vault`disk, net
      ensures Valid() && OnlyGrew(old(vault.disk), vault.disk)
      ensures old(Trusty()) ==> Trusty()
      ensures vault.disk == old(vault.disk).(chunks := vault.disk.chunks)
      ensures r.Ok? ==> k in vault.disk.chunks && |vault.disk.chunks| == |old(vault.disk).chunks| + 1
      ensures vault.disk.chunks.Keys <= old(vault.disk).chunks.Keys + {k}
      ensures r.Err? ==> vault.disk == old(vault.disk)
      ensures r.Err? && r.error != Crashed ==>
                Explains(vault.env, net.log, |old(net.log)|, peers, vault.disk, c, r.error)
      ensures Continued(net.answers, old(net.log), net.log)
                && Fetched(vault.env, net.log, |old(net.log)|, peers, old(vault.disk), vault.disk, c)
      ensures (life.Some? <==> old(life).Some?) && (r == Err(Crashed) ==> old(life).Some?)
    {
      hide StoreOk, Trusted, Represents, FirstGood, IsClash, JobOk, ChunkNames, FromPeer, AllFailed, Fetched;
      SameGrew(vault.disk);
      ghost var lo := |net.log|;
      var got := net.GetBlob(vault.env.H, peers, k);
      NothingFetched(vault.env, net.log, lo, peers, vault.disk, c);
      if got.None? { return Err(Unavailable(k)); }
      var alive := Write();
      if !alive { return Err(Crashed); }
      ghost var before := vault.disk;
      var put := vault.PutChunk(k, got.value.1);
      OneMore(before.chunks, k, got.value.1);
      ChunkFetched(vault.env, net.log, lo, peers, before, vault.disk, c, k, got.value.1);
      GrownJobs(before, vault.disk, jobs, job);
      r := Ok(());
    }

    /** One turn of the loop on a commit that is new to it: fetch the commit, its tree and its chunks. */
    method Visit(peers: seq<Peer>, c: Cid) returns (r: Result<Gain, SyncError>)
      requires Valid()
      modifies this`jobs, this`job, this`life, vault`disk, vault`clash, net
      ensures Valid() && OnlyGrew(old(vault.disk), vault.disk) && vault.clash == old(vault.clash)
      ensures Passes(old(vault.disk), old(jobs), old(job), vault.disk, jobs, job)
      ensures old(Trusty()) ==> Trusty()
      ensures r.Ok? ==>
                LoadCommit(vault.env, vault.disk, c).Ok?
                && r.value.parents == LoadCommit(vault.env, vault.disk, c).value.parents
      ensures r.Ok? ==> |r.value.parents| <= MAX_COMMIT_PARENTS && c in job.doneCommits
      ensures r.Ok? ==> Gained(old(vault.disk), vault.disk, r.value.commits, r.value.trees, r.value.chunks)
      ensures r.Ok? && old(Trusty()) ==> Complete(vault.env, vault.disk, c)
      ensures r.Err? && r.error.Lost? ==> !old(Trusty())
      ensures r.Err? && r.error != Crashed && !r.error.Lost? ==>
                Explains(vault.env, net.log, |old(net.log)|, peers, vault.disk, c, r.error)
      ensures Continued(net.answers, old(net.log), net.log)
                && Fetched(vault.env, net.log, |old(net.log)|, peers, old(vault.disk), vault.disk, c)
      ensures (life.Some? <==> old(life).Some?) && (r == Err(Crashed) ==> old(life).Some?)
    {
      hide StoreOk, Trusted, Represents, GoodObject, LoadCommit, LoadTree, FirstGood, IsClash, Trusty, Asked, Extends,
        Fetched, Explains, Continued, TreeName, ChunkNames, Complete, Recent, NotStored, Saved;
      SameGrew(vault.disk);
      ghost var log0, lo, d0, jobs0, job0 := net.log, |net.log|, vault.disk, jobs, job;
      var commits := FetchCommit(peers, c);
      ghost var log1, jobs1, job1 := net.log, jobs, job;
      LogGrows(net.answers, log0, log1);
      if commits.Err? {
        if commits.error != Crashed { NotLost(vault.env, net.log, lo, peers, vault.disk, c, commits.error); }
        return Err(commits.error);
      }
      ghost var d1 := vault.disk;
      StoredLoads(vault.env, d1, c);
      var loaded := LoadCommit(vault.env, vault.disk, c);
      if loaded.Err? { return Err(Lost(c)); }
      var commit := loaded.value;
      NamesOf(vault.env, d1, c);
      var trees := FetchTree(peers, c, commit.tree);
      ghost var d2, log2, jobs2, job2 := vault.disk, net.log, jobs, job;
      PassesTwice(d0, jobs0, job0, d1, jobs1, job1, d2, jobs2, job2);
      LogGrows(net.answers, log1, log2);
      ContinuedTwice(net.answers, log0, log1, log2);
      FetchedTwice(vault.env, log1, log2, lo, |log1|, peers, old(vault.disk), d1, d2, c);
      OnlyGrewTwice(old(vault.disk), d1, d2);
      SameCommits(vault.env, d1, d2);
      if trees.Err? {
        if trees.error != Crashed {
          ExplainsLater(vault.env, log2, lo, |log1|, peers, d2, c, trees.error);
          NotLost(vault.env, log2, lo, peers, d2, c, trees.error);
        }
        return Err(trees.error);
      }
      StoredLoads(vault.env, d2, commit.tree);
      var tree := LoadTree(vault.env, vault.disk, commit.tree);
      if tree.Err? { return Err(Lost(commit.tree)); }
      NamesOf(vault.env, d2, c);
      var ids := AllChunkHashes(tree.value);
      var chunks := FetchChunks(peers, c, ids);
      PassesTwice(d0, jobs0, job0, d2, jobs2, job2, vault.disk, jobs, job);
      LogGrows(net.answers, log2, net.log);
      ContinuedTwice(net.answers, log0, log2, net.log);
      FetchedTwice(vault.env, log2, net.log, lo, |log2|, peers, old(vault.disk), d2, vault.disk, c);
      OnlyGrewTwice(old(vault.disk), d2, vault.disk);
      SameCommits(vault.env, d2, vault.disk);
      if chunks.Err? {
        if chunks.error != Crashed {
          ExplainsLater(vault.env, net.log, lo, |log2|, peers, vault.disk, c, chunks.error);
          NotLost(vault.env, net.log, lo, peers, vault.disk, c, chunks.error);
        }
        return Err(chunks.error);
      }
      if Trusty() && (forall k :: k in ids ==> k in vault.disk.chunks) { AllHere(vault.env, d2, vault.disk, c); }
      r := Ok(Gain(commit.parents, commits.value, trees.value, chunks.value));
    }

    /** The loop of `fetch_dag`. It takes at most 1 + 16 * (MAX_JOB_COMMITS + 1) items from its queue. */
    method WalkDag(peers: seq<Peer>, target: Cid) returns (r: Result<Gain, SyncError>, ghost turns: nat)
      requires Valid()
      modifies this`jobs, this`job, this`life, vault`disk, vault`clash, net
      ensures Valid() && OnlyGrew(old(vault.disk), vault.disk) && vault.clash == old(vault.clash)
      ensures Passes(old(vault.disk), old(jobs), old(job), vault.disk, jobs, job)
      ensures r.Ok? || turns > 1 ==> target in job.doneCommits
      ensures old(Trusty()) ==> Trusty()
      ensures turns <= TURNS
      ensures r.Ok? ==> Gained(old(vault.disk), vault.disk, r.value.commits, r.value.trees, r.value.chunks)
      ensures r.Ok? && old(Trusty()) ==> Whole(vault.env, vault.disk, target)
      ensures r.Err? ==> Blamed(vault.env, net.log, |old(net.log)|, peers, vault.disk, target, old(Trusty()), r.error)
      ensures Continued(net.answers, old(net.log), net.log)
                && Sourced(vault.env, net.log, |old(net.log)|, peers, old(vault.disk), vault.disk, target)
      ensures (life.Some? <==> old(life).Some?) && (r == Err(Crashed) ==> old(life).Some?)
      ensures old(Trusty()) && (turns > 1 || r.Ok?) ==> Complete(vault.env, vault.disk, target)
      ensures old(Trusty()) && r.Err? && turns <= 1 && r.error != Crashed ==>
                Explains(vault.env, net.log, |old(net.log)|, peers, vault.disk, target, r.error)
    {
      hide StoreOk, Trusted, Represents, IsClash, Trusty, Explains, Extends, Tracked, AllComplete, LoadCommit,
        Complete, WantedCommit, Line, IsParent, Whole, Continued, Sourced, Fetched, Blamed, NotStored, Saved;
      SameGrew(vault.disk);
      NothingPasses(vault.disk, jobs, job);
      ghost var log0, lo := net.log, |net.log|;
      NothingSourced(vault.env, net.log, lo, peers, vault.disk, target);
      ContinuedHere(net.answers, net.log);
      TrackStart(vault.env, vault.disk, target);
      var queue, visited: set<Cid> := [target], {};
      var commits: nat, trees: nat, chunks: nat := 0, 0, 0;
      turns := 0;
      while queue != []
        invariant Valid() && OnlyGrew(old(vault.disk), vault.disk) && vault.clash == old(vault.clash)
        invariant Passes(old(vault.disk), old(jobs), old(job), vault.disk, jobs, job)
        invariant old(Trusty()) ==> Trusty()
        invariant turns > 0 ==> target in job.doneCommits
        invariant Tracked(vault.env, vault.disk, target, visited, queue)
        invariant old(Trusty()) ==> AllComplete(vault.env, vault.disk, visited)
        invariant |visited| <= MAX_JOB_COMMITS + 1
        invariant turns + |queue| <= 1 + MAX_COMMIT_PARENTS * |visited|
        invariant Gained(old(vault.disk), vault.disk, commits, trees, chunks)
        invariant Continued(net.answers, log0, net.log)
                  && Sourced(vault.env, net.log, lo, peers, old(vault.disk), vault.disk, target)
        invariant life.Some? <==> old(life).Some?
        invariant if turns == 0 then visited == {} && queue == [target] else target in visited
        decreases MAX_JOB_COMMITS + 1 - |visited|, |queue|
      {
        var c := queue[0];
        turns := turns + 1;
        if |visited| > MAX_JOB_COMMITS {
          if old(Trusty()) { OneIsComplete(vault.env, vault.disk, visited, target); }
          TooDeepIsBlamed(vault.env, net.log, lo, peers, vault.disk, target, visited, queue, old(Trusty()));
          return Err(TooDeep(visited)), turns;
        }
        if c in visited {
          TrackSkip(vault.env, vault.disk, target, visited, queue);
          queue := queue[1..];
        } else {
          ghost var before, log, jobs1, job1 := vault.disk, net.log, jobs, job;
          var seen := Visit(peers, c);
          PassesTwice(old(vault.disk), old(jobs), old(job), before, jobs1, job1, vault.disk, jobs, job);
          LogGrows(net.answers, log0, log);
          LogGrows(net.answers, log, net.log);
          ContinuedTwice(net.answers, log0, log, net.log);
          OnlyGrewExtends(before, vault.disk);
          GrownTracked(vault.env, before, vault.disk, target, visited, queue);
          QueueIsWanted(vault.env, vault.disk, target, visited, queue);
          SourcedVisit(vault.env, log, net.log, lo, peers, old(vault.disk), before, vault.disk, target, c);
          OnlyGrewTwice(old(vault.disk), before, vault.disk);
          if seen.Err? {
            if old(Trusty()) && turns > 1 { OneIsComplete(vault.env, vault.disk, visited, target); }
            VisitIsBlamed(vault.env, net.log, lo, |log|, peers, vault.disk, target, visited, queue, old(Trusty()),
                seen.error);
            return Err(seen.error), turns;
          }
          TrackVisit(vault.env, vault.disk, target, visited, queue, c);
          if old(Trusty()) { OneMoreComplete(vault.env, vault.disk, visited, c); }
          queue, visited := queue[1..] + seen.value.parents, visited + {c};
          commits, trees, chunks := commits + seen.value.commits, trees + seen.value.trees, chunks + seen.value.chunks;
        }
      }
      if old(Trusty()) {
        TrackEnd(vault.env, vault.disk, target, visited);
        WholeIsComplete(vault.env, vault.disk, target);
      }
      r := Ok(Gain([], commits, trees, chunks));
    }

    /** `set_head_public` on a complete target; the process may die before HEAD or before HEADS is written. */
    method AdoptHead(target: Cid) returns (alive: bool)
      requires Valid() && Complete(vault.env, vault.disk, target)
      modifies this`life, vault`disk, vault`versions
      ensures Valid() && vault.disk == old(vault.disk).(head := vault.disk.head, heads := vault.disk.heads)
      ensures HeadsOk(old(vault.disk), vault.disk, target, true)
      ensures alive ==> vault.disk == Adopted(old(vault.disk), target)
      ensures alive <==> old(life).None? || old(life).value >= 2
      ensures life.Some? <==> old(life).Some?
      ensures old(Trusty()) ==> Trusty()
    {
      hide StoreOk, Trusted, Represents, IsClash, LoadCommit, LoadTree, HasChunks;
      alive := Write();
      if !alive { return; }
      vault.MoveHead(target);
      alive := Write();
      if !alive { return; }
      vault.RecordHead(target);
      assert vault.disk.heads == old(vault.disk).heads + {target};
    }

    /** The part of `fetch_dag` whose failure is recorded in the job. */
    method FetchJob(peers: seq<Peer>, target: Cid, setHead: bool)
      returns (r: Result<SyncResult, SyncError>, ghost turns: nat)
      requires Valid() && job.target == target
      modifies this`jobs, this`job, this`life, vault`disk, vault`clash, vault`versions, net
      ensures Valid() && Extends(old(vault.disk), vault.disk) && vault.clash == old(vault.clash) && turns <= TURNS
      ensures job.target == target && (old(Trusty()) ==> Trusty())
      ensures HeadsOk(old(vault.disk), vault.disk, target, setHead && Complete(vault.env, vault.disk, target))
      ensures r.Ok? ==> Complete(vault.env, vault.disk, target) && target in jobs && jobs[target].state == Done
      ensures r.Ok? ==> Gained(old(vault.disk), vault.disk, r.value.commits, r.value.trees, r.value.chunks)
      ensures r.Ok? ==>
                r.value.headUpdated == setHead
                && (setHead ==> vault.disk.head == Some(target) && target in vault.disk.heads)
      ensures r.Ok? && old(Trusty()) ==> Whole(vault.env, vault.disk, target)
      ensures r.Err? ==> Blamed(vault.env, net.log, |old(net.log)|, peers, vault.disk, target, old(Trusty()), r.error)
      ensures r.Err? && r.error != Crashed ==> HeadsOk(old(vault.disk), vault.disk, target, false)
      ensures Continued(net.answers, old(net.log), net.log)
                && Sourced(vault.env, net.log, |old(net.log)|, peers, old(vault.disk), vault.disk, target)
      ensures (life.Some? <==> old(life).Some?) && (r == Err(Crashed) ==> old(life).Some?)
      ensures old(Trusty()) && turns > 1 ==> Complete(vault.env, vault.disk, target)
      ensures old(Trusty()) && r.Err? && r.error != Crashed ==>
                turns > 1 || Explains(vault.env, net.log, |old(net.log)|, peers, vault.disk, target, r.error)
      ensures NotStored(old(vault.disk), vault.disk, old(job))
      ensures r.Err? && r.error != Crashed ==> ListsAll(old(job), job) && (turns > 1 ==> target in job.doneCommits)
      ensures r.Err? && old(job).state != Done && Saved(old(job), old(jobs)) ==>
                ListsAll(old(job), Resumed(jobs, target))
    {
      hide StoreOk, Trusted, Represents, IsClash, JobOk, Complete, Whole, Explains, WantedCommit, Line, Extends,
        IsParent, LoadCommit, Continued, Sourced, Blamed, NotStored;
      var walked;
      walked, turns := WalkDag(peers, target);
      if walked.Err? { return Err(walked.error), turns; }
      ghost var d, lo := vault.disk, |old(net.log)|;
      LateErrors(vault.env, net.log, lo, peers, d, target, old(Trusty()));
      if old(Trusty()) { WholeIsComplete(vault.env, d, target); }
      AddDone(d, job, target);
      job := job.(state := Verifying);
      var alive := Persist();
      if !alive { return Err(Crashed), turns; }
      var complete := vault.IsComplete(target);
      if !complete.value { return Err(NotComplete), turns; }
      if setHead {
        alive := AdoptHead(target);
        SameButHeads(vault.env, d, vault.disk, target);
        SourcedHeads(vault.env, net.log, lo, peers, old(vault.disk), d, vault.disk, target);
        HeadsNotStored(old(vault.disk), d, vault.disk, old(job));
        LateErrors(vault.env, net.log, lo, peers, vault.disk, target, old(Trusty()));
        ExtendsTwice(old(vault.disk), d, vault.disk);
        if !alive { return Err(Crashed), turns; }
      }
      AddDone(vault.disk, job, target);
      job := job.(state := Done);
      alive := Persist();
      if !alive { return Err(Crashed), turns; }
      r := Ok(SyncResult(walked.value.commits, walked.value.trees, walked.value.chunks, setHead));
    }

    /** The part of `fetch_dag` behind the fast path: take up the job, and record how it ends. */
    method FetchMissing(peers: seq<Peer>, target: Cid, setHead: bool)
      returns (r: Result<SyncResult, SyncError>, ghost turns: nat)
      requires Valid() && peers != [] && !Complete(vault.env, vault.disk, target)
      modifies this`jobs, this`job, this`life, vault`disk, vault`clash, vault`versions, net
      ensures Valid() && Extends(old(vault.disk), vault.disk) && vault.clash == old(vault.clash) && turns <= TURNS
      ensures old(JobsOk()) ==> JobsOk()
      ensures HeadsOk(old(vault.disk), vault.disk, target, setHead && Complete(vault.env, vault.disk, target))
      ensures r.Ok? ==> Complete(vault.env, vault.disk, target) && target in jobs && jobs[target].state == Done
      ensures r.Ok? ==> Gained(old(vault.disk), vault.disk, r.value.commits, r.value.trees, r.value.chunks)
      ensures r.Ok? ==>
                r.value.headUpdated == setHead
                && (setHead ==> vault.disk.head == Some(target) && target in vault.disk.heads)
      ensures r.Ok? && old(JobsOk()) ==> Whole(vault.env, vault.disk, target)
      ensures r.Err? && r.error != Crashed ==> job.target == target && job.state == Failed
      ensures r.Err? ==> Blamed(vault.env, net.log, |old(net.log)|, peers, vault.disk, target, old(JobsOk()), r.error)
      ensures r.Err? && r.error != Crashed ==> HeadsOk(old(vault.disk), vault.disk, target, false)
      ensures Continued(net.answers, old(net.log), net.log)
                && Sourced(vault.env, net.log, |old(net.log)|, peers, old(vault.disk), vault.disk, target)
      ensures r == Err(Crashed) ==> old(life).Some?
      ensures old(JobsOk()) && turns > 1 ==> Complete(vault.env, vault.disk, target)
      ensures old(JobsOk()) && r.Err? && r.error != Crashed ==>
                turns > 1 || Explains(vault.env, net.log, |old(net.log)|, peers, vault.disk, target, r.error)
      ensures NotStored(old(vault.disk), vault.disk, Resumed(old(jobs), target))
      ensures r.Err? ==> ListsAll(Resumed(old(jobs), target), Resumed(jobs, target))
      ensures r.Err? && turns > 1 && old(life).None? ==> target in Resumed(jobs, target).doneCommits
    {
      hide StoreOk, Trusted, Represents, IsClash, JobOk, Complete, Whole, Explains, WantedCommit, Line, Continued,
        Sourced, Blamed, NotStored, Extends, HeadsOk, Gained, ListsAll;
      ghost var lo, d0, resumed := |net.log|, vault.disk, Resumed(jobs, target);
      NothingSourced(vault.env, net.log, lo, peers, vault.disk, target);
      ContinuedHere(net.answers, net.log);
      LateErrors(vault.env, net.log, lo, peers, vault.disk, target, JobsOk());
      SameNotStored(d0, d0, resumed);
      SameGrewHere(d0);
      SameHeads(d0, target);
      turns := 0;
      LoadJob(target);
      AddDone(vault.disk, job, target);
      job := job.(state := Fetching);
      ListsItself(resumed, Fetching);
      ListsItself(job, Fetching);
      var alive := Persist();
      if !alive { return Err(Crashed), turns; }
      ghost var trusty := Trusty();
      r, turns := FetchJob(peers, target, setHead);
      SameLists(d0, vault.disk, resumed, Fetching);
      if r.Err? { BlamedAnyway(vault.env, net.log, lo, peers, vault.disk, target, trusty, old(JobsOk()), r.error); }
      if r.Err? && r.error != Crashed {
        AddDone(vault.disk, job, target);
        ListsLater(resumed, job, Failed);
        job := job.(state := Failed);
        alive := Persist();
      }
    }

    /** `fetch_dag`. On every exit, a crash included, the store is sound and has only grown, and no checkpoint
        claims more than is there; HEAD has not moved, or to the complete target. Success off the fast path means
        that every ancestor is here; an error is one of those that `Blamed` explains. */
    method FetchDag(peers: seq<Peer>, target: Cid, setHead: bool)
      returns (r: Result<SyncResult, SyncError>, ghost turns: nat)
      requires Valid()
      modifies this`jobs, this`job, this`life, vault`disk, vault`clash, vault`versions, net
      ensures Valid() && Extends(old(vault.disk), vault.disk) && vault.clash == old(vault.clash) && turns <= TURNS
      ensures AllVerified(vault.env, vault.disk)
      ensures old(JobsOk()) ==> JobsOk()
      ensures HeadsOk(old(vault.disk), vault.disk, target, setHead && Complete(vault.env, vault.disk, target))
      ensures r.Ok? ==> Complete(vault.env, vault.disk, target)
      ensures r.Ok? ==> Gained(old(vault.disk), vault.disk, r.value.commits, r.value.trees, r.value.chunks)
      ensures r.Ok? ==>
                r.value.headUpdated == setHead
                && (setHead ==> vault.disk.head == Some(target) && target in vault.disk.heads)
      ensures r.Ok? && old(JobsOk()) && !Complete(vault.env, old(vault.disk), target) ==>
                Whole(vault.env, vault.disk, target)
      ensures r.Ok? && !Complete(vault.env, old(vault.disk), target) ==> target in jobs && jobs[target].state == Done
      ensures r.Err? && r.error != Crashed && r.error != NoPeers ==> job.target == target && job.state == Failed
      ensures r.Err? ==> Blamed(vault.env, net.log, |old(net.log)|, peers, vault.disk, target, old(JobsOk()), r.error)
      ensures r.Err? && r.error != Crashed ==> HeadsOk(old(vault.disk), vault.disk, target, false)
      ensures Continued(net.answers, old(net.log), net.log)
                && Sourced(vault.env, net.log, |old(net.log)|, peers, old(vault.disk), vault.disk, target)
      ensures r == Err(Crashed) ==> old(life).Some?
      ensures old(JobsOk()) && turns > 1 ==> Complete(vault.env, vault.disk, target)
      ensures old(JobsOk()) && r.Err? && r.error != Crashed && r.error != NoPeers ==>
                turns > 1 || Explains(vault.env, net.log, |old(net.log)|, peers, vault.disk, target, r.error)
      ensures NotStored(old(vault.disk), vault.disk, Resumed(old(jobs), target))
      ensures r.Err? ==> ListsAll(Resumed(old(jobs), target), Resumed(jobs, target))
      ensures r.Err? && turns > 1 && old(life).None? ==> target in Resumed(jobs, target).doneCommits
      ensures old(Stuck(vault.env, vault.disk, jobs, target)) ==> r.Err? && Stuck(vault.env, vault.disk, jobs, target)
      ensures peers != [] && Complete(vault.env, old(vault.disk), target) ==>
                && net.log == old(net.log) && jobs == old(jobs) && (old(life).None? || old(life).value >= 2 ==> r.Ok?)
                && (Whole(vault.env, vault.disk, target) <==> Whole(vault.env, old(vault.disk), target))
    {
      hide StoreOk, Trusted, Represents, IsClash, JobOk, Complete, Whole, Explains, WantedCommit, Line, Continued,
        Sourced, Blamed, NotStored, Stuck, Extends, AllVerified;
      ghost var lo, d0, jobs0 := |net.log|, vault.disk, jobs;
      SameNotStored(d0, d0, Resumed(jobs, target));
      SameGrewHere(d0);
      SoundIsVerified(vault.env, d0);
      if Stuck(vault.env, d0, jobs0, target) { StuckIsIncomplete(vault.env, d0, jobs0, target); }
      NothingSourced(vault.env, net.log, lo, peers, vault.disk, target);
      ContinuedHere(net.answers, net.log);
      LateErrors(vault.env, net.log, lo, peers, vault.disk, target, JobsOk());
      turns := 0;
      SameGrew(vault.disk);
      if peers == [] { return Err(NoPeers), turns; }
      var complete := vault.IsComplete(target);
      if complete.value {
        if setHead {
          ghost var d := vault.disk;
          var alive := AdoptHead(target);
          SameButHeads(vault.env, d, vault.disk, target);
          SameNotStored(d, vault.disk, Resumed(jobs, target));
          SourcedHeads(vault.env, net.log, lo, peers, d, d, vault.disk, target);
          LateErrors(vault.env, net.log, lo, peers, vault.disk, target, old(JobsOk()));
          GrownJobs(d, vault.disk, jobs, job);
          SoundIsVerified(vault.env, vault.disk);
          if !alive { return Err(Crashed), turns; }
        }
        return Ok(SyncResult(0, 0, 0, setHead)), turns;
      }
      r, turns := FetchMissing(peers, target, setHead);
      SoundIsVerified(vault.env, vault.disk);
      if Stuck(vault.env, d0, jobs0, target) {
        StuckForAll(vault.env, d0, jobs0, vault.disk, target);
        if r.Err? { StaysStuck(vault.env, d0, jobs0, vault.disk, jobs, target); }
      }
    }
  }

  lemma CommitNotListed(env: Env, log: seq<Exchange>, lo: nat, peers: seq<Peer>, d: Disk, d': Disk, c: Cid, job: Job)
    requires Fetched(env, log, lo, peers, d, d', c) && d' == d.(commits := d'.commits) && c !in job.doneCommits
    ensures NotStored(d, d', job)
  {
    hide FromPeer, TreeName, ChunkNames;
  }

  lemma TreeNotListed(env: Env, log: seq<Exchange>, lo: nat, peers: seq<Peer>, d: Disk, d': Disk, c: Cid, tree: Cid,
                      job: Job)
    requires Fetched(env, log, lo, peers, d, d', c) && d' == d.(trees := d'.trees) && tree in TreeName(env, d, c)
              && tree !in job.doneTrees
    ensures NotStored(d, d', job)
  {
    hide FromPeer, ChunkNames, CommitOf;
  }

  /** Chunks that come and go do not change which chunks a commit needs. */
  lemma SameChunkNames(env: Env, d: Disk, d': Disk, c: Cid)
    requires d'.commits == d.commits && d'.trees == d.trees
    ensures ChunkNames(env, d', c) == ChunkNames(env, d, c)
  {
  }

  lemma CommitFetched(env: Env, log: seq<Exchange>, lo: nat, peers: seq<Peer>, d: Disk, d': Disk, c: Cid, data: bytes)
    requires d' == d.(commits := d.commits[c := data]) && FromPeer(log, lo, peers, c, data)
    ensures Fetched(env, log, lo, peers, d, d', c)
  {
    hide FromPeer;
  }

  lemma TreeFetched(env: Env, log: seq<Exchange>, lo: nat, peers: seq<Peer>, d: Disk, d': Disk, c: Cid, tree: Cid,
                    data: bytes)
    requires d' == d.(trees := d.trees[tree := data]) && FromPeer(log, lo, peers, tree, data)
              && tree in TreeName(env, d, c)
    ensures Fetched(env, log, lo, peers, d, d', c)
  {
    hide FromPeer, CommitOf, TreeOf;
  }

  lemma ChunkFetched(env: Env, log: seq<Exchange>, lo: nat, peers: seq<Peer>, d: Disk, d': Disk, c: Cid, k: Cid,
                     data: bytes)
    requires d' == d.(chunks := d.chunks[k := data]) && FromPeer(log, lo, peers, k, data) && k in ChunkNames(env, d, c)
    ensures Fetched(env, log, lo, peers, d, d', c)
  {
    hide FromPeer, CommitOf, TreeOf;
  }

  lemma LogGrows(answers: Answers, a: seq<Exchange>, b: seq<Exchange>)
    requires Continued(answers, a, b)
    ensures a <= b && |a| <= |b|
  {
  }

  lemma ContinuedHere(answers: Answers, a: seq<Exchange>)
    ensures Continued(answers, a, a)
  {
  }

  lemma NotLost(env: Env, log: seq<Exchange>, lo: nat, peers: seq<Peer>, d: Disk, c: Cid, e: SyncError)
    requires Explains(env, log, lo, peers, d, c, e)
    ensures !e.Lost? && e != Crashed
  {
  }

  /** What a loaded commit names. */
  lemma NamesOf(env: Env, d: Disk, c: Cid)
    requires LoadCommit(env, d, c).Ok?
    ensures var t := LoadCommit(env, d, c).value.tree;
            && TreeName(env, d, c) == {t}
            && (LoadTree(env, d, t).Ok? ==> ChunkNames(env, d, c) == ChunksOf(LoadTree(env, d, t).value))
  {
  }

  /** A commit whose tree loads and whose chunks are all here is complete. */
  lemma AllHere(env: Env, d: Disk, d': Disk, c: Cid)
    requires d' == d.(chunks := d'.chunks) && Loads(env, d, c)
    requires forall k :: k in ChunkNames(env, d, c) ==> k in d'.chunks
    ensures Complete(env, d', c)
  {
    hide CommitOf, TreeOf;
  }

  /** How many chunks the checkpoint on disk does not know of. */
  function Lag(jobs: map<Cid, Job>, job: Job): nat {
    if job.target in jobs then |job.doneChunks - jobs[job.target].doneChunks| else |job.doneChunks|
  }

  /** The checkpoint lags by no more than what has been done since the last multiple of 32. */
  predicate Recent(jobs: map<Cid, Job>, job: Job) {
    job.target in jobs && jobs[job.target].doneChunks <= job.doneChunks && Lag(jobs, job) <= |job.doneChunks| % 32
  }

  lemma RecentLags(jobs: map<Cid, Job>, job: Job)
    requires Recent(jobs, job)
    ensures Lag(jobs, job) <= 32
  {
  }

  lemma RecentAdds(jobs: map<Cid, Job>, job: Job, k: Cid)
    requires Recent(jobs, job) && k !in job.doneChunks
    ensures var more := job.(doneChunks := job.doneChunks + {k});
            && Lag(jobs, more) <= 32
            && (if |more.doneChunks| % 32 == 0 then Recent(jobs[job.target := more], more) else Recent(jobs, more))
  {
    var saved := jobs[job.target].doneChunks;
    assert job.doneChunks + {k} - saved == (job.doneChunks - saved) + {k};
    assert job.doneChunks + {k} - (job.doneChunks + {k}) == {};
  }

  /** What was stored, and counted. */
  predicate Gained(d: Disk, d': Disk, commits: nat, trees: nat, chunks: nat) {
    && |d'.commits| == |d.commits| + commits
    && |d'.trees| == |d.trees| + trees
    && |d'.chunks| == |d.chunks| + chunks
  }

  /** In a sound store what is there loads. */
  lemma StoredLoads(env: Env, d: Disk, h: Cid)
    requires StoreOk(env, d)
    ensures h in d.commits ==> LoadCommit(env, d, h).Ok?
    ensures h in d.trees ==> LoadTree(env, d, h).Ok?
    ensures LoadCommit(env, d, h).Ok? ==> |LoadCommit(env, d, h).value.parents| <= MAX_COMMIT_PARENTS
  {
    hide CommitOf, TreeOf, SignatureOk;
    if h in d.commits { assert GoodObject(env, h, d.commits[h]); }
  }

  lemma OnlyGrewTwice(a: Disk, b: Disk, c: Disk)
    requires OnlyGrew(a, b) && OnlyGrew(b, c)
    ensures OnlyGrew(a, c)
  {
  }

  lemma SameGrew(d: Disk)
    ensures OnlyGrew(d, d)
  {
  }

  lemma ChunksStay(d: Disk, d': Disk)
    requires OnlyGrew(d, d')
    ensures forall h :: h in d.chunks ==> h in d'.chunks
  {
  }

  lemma OneMore(m: Objects, h: Cid, w: bytes)
    requires h !in m
    ensures |m[h := w]| == |m| + 1
  {
    assert m[h := w].Keys == m.Keys + {h};
  }

  lemma DoneIsThere(d: Disk, job: Job)
    requires JobOk(d, job)
    ensures forall c :: c in job.doneCommits ==> c in d.commits
    ensures forall c :: c in job.doneTrees ==> c in d.trees
    ensures forall c :: c in job.doneChunks ==> c in d.chunks
  {
  }

  lemma GrownJobs(d: Disk, d': Disk, jobs: map<Cid, Job>, job: Job)
    requires Extends(d, d')
    ensures (forall t :: t in jobs ==> JobOk(d, jobs[t])) ==> forall t :: t in jobs ==> JobOk(d', jobs[t])
    ensures JobOk(d, job) ==> JobOk(d', job)
  {
  }

  lemma AddDone(d: Disk, job: Job, k: Cid)
    ensures JobOk(d, job) && k in d.commits ==> JobOk(d, job.(doneCommits := job.doneCommits + {k}))
    ensures JobOk(d, job) && k in d.trees ==> JobOk(d, job.(doneTrees := job.doneTrees + {k}))
    ensures JobOk(d, job) && k in d.chunks ==> JobOk(d, job.(doneChunks := job.doneChunks + {k}))
    ensures JobOk(d, job) ==> forall st :: JobOk(d, job.(state := st))
  {
  }
}
