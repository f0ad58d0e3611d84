/** Runs of fetches that crash, fail and are resumed, and the two ways in which the promise of such a run ends. */
module Resume {
  import opened Bytes
  import opened Frames
  import opened Commits
  import opened Disks
  import opened Versions
  import opened Gc
  import opened Vaults
  import opened Network
  import opened Sync
  import opened Runs
  import opened Snapshots

  ghost predicate AllJobsOk(d: Disk, jobs: map<Cid, Job>) {
    forall t :: t in jobs ==> JobOk(d, jobs[t])
  }

  /** A fetch, with the span of life the process has for it, or any other operation of the vault. */
  datatype Event = Fetch(peers: seq<Peer>, target: Cid, setHead: bool, life: Option<nat>) | Do(op: Op)

  /** Anything but a collection. */
  predicate EventFits(e: Event) {
    e.Do? ==> OpFits(e.op) && !e.op.Collect?
  }

  /** What is on disk, and what has been said. */
  datatype Point = Point(disk: Disk, jobs: map<Cid, Job>, log: seq<Exchange>)

  /** What a fetch, by a process that starts on `a` and may die, can leave behind. */
  ghost predicate Fetches(env: Env, answers: Answers, a: Point, e: Event, r: Result<SyncResult, SyncError>, b: Point)
    requires e.Fetch?
  {
    var lo := |a.log|;
    && Extends(a.disk, b.disk) && Continued(answers, a.log, b.log)
    && Sourced(env, b.log, lo, e.peers, a.disk, b.disk, e.target)
    && (AllJobsOk(a.disk, a.jobs) ==> AllJobsOk(b.disk, b.jobs))
    && HeadsOk(a.disk, b.disk, e.target, e.setHead && Complete(env, b.disk, e.target))
    && (r.Ok? ==> Fetched(env, a, e, r.value, b))
    && (r.Err? ==> Blamed(env, b.log, lo, e.peers, b.disk, e.target, AllJobsOk(a.disk, a.jobs), r.error))
    && (r == Err(Crashed) ==> e.life.Some?)
    && (e.peers != [] && Complete(env, a.disk, e.target) && (e.life.None? || e.life.value >= 2) ==>
         r.Ok? && b.log == a.log)
  }

  /** A fetch that succeeds. */
  ghost predicate Fetched(env: Env, a: Point, e: Event, r: SyncResult, b: Point)
    requires e.Fetch?
  {
    && Complete(env, b.disk, e.target) && Gained(a.disk, b.disk, r.commits, r.trees, r.chunks)
         && r.headUpdated == e.setHead
    && (e.setHead ==> b.disk.head == Some(e.target) && e.target in b.disk.heads)
    && (AllJobsOk(a.disk, a.jobs) && !Complete(env, a.disk, e.target) ==> Whole(env, b.disk, e.target))
  }

  /** One event: a fetch and its result, or an operation. */
  ghost predicate Happens(env: Env, retain: nat, answers: Answers, a: Point, e: Event, r: Option<Result<SyncResult,
                          SyncError>>, b: Point) {
    && EventFits(e)
    && match e
       case Do(op) => r.None? && b == Point(After(env, retain, a.disk, op), a.jobs, a.log) && Keeps(a.disk, b.disk)
       case Fetch(_, _, _, _) => r.Some? && Fetches(env, answers, a, e, r.value, b)
  }

  /** The points that a list of events leads through. */
  ghost predicate Trail(env: Env, retain: nat, answers: Answers, trail: seq<Point>, events: seq<Event>,
                        results: seq<Option<Result<SyncResult, SyncError>>>) {
    && |trail| == |events| + 1 && |results| == |events|
    && forall i, j :: 0 <= i < |events| && j == i + 1 ==>
         Happens(env, retain, answers, trail[i], events[i], results[i], trail[j])
  }

  /** The event writes no object in place of a different one; a fetch never does. */
  ghost predicate CleanEvent(env: Env, d: Disk, e: Event) {
    e.Do? ==> OpFits(e.op) && WritesCleanly(env, d, e.op)
  }

  ghost predicate CleanTrail(env: Env, trail: seq<Point>, events: seq<Event>)
    requires |trail| == |events| + 1
  {
    forall i :: 0 <= i < |events| ==> CleanEvent(env, trail[i].disk, events[i])
  }

  /** At the `i`th event a fetch that began with an incomplete target succeeds. */
  ghost predicate Brings(env: Env, trail: seq<Point>, events: seq<Event>, results: seq<Option<Result<SyncResult,
                         SyncError>>>, i: nat)
    requires i < |events| < |trail| && |results| == |events|
  {
    events[i].Fetch? && results[i].Some? && results[i].value.Ok? && !Complete(env, trail[i].disk, events[i].target)
  }

  lemma OneEventJobs(env: Env, retain: nat, answers: Answers, a: Point, e: Event, r: Option<Result<SyncResult,
                     SyncError>>, b: Point)
    requires Happens(env, retain, answers, a, e, r, b) && AllJobsOk(a.disk, a.jobs)
    ensures AllJobsOk(b.disk, b.jobs)
  {
    hide After, Fetched, Blamed, Sourced, Continued;
  }

  /** The checkpoints are right at every point, whether operations write cleanly or not. */
  lemma {:induction false} JobsStayOk(env: Env, retain: nat, answers: Answers, trail: seq<Point>, events: seq<Event>,
                                      results: seq<Option<Result<SyncResult, SyncError>>>, i: nat)
    requires Trail(env, retain, answers, trail, events, results) && AllJobsOk(trail[0].disk, trail[0].jobs)
              && i <= |events|
    ensures AllJobsOk(trail[i].disk, trail[i].jobs)
    decreases i
  {
    hide Happens, AllJobsOk;
    if i > 0 {
      JobsStayOk(env, retain, answers, trail, events, results, i - 1);
      assert Happens(env, retain, answers, trail[i - 1], events[i - 1], results[i - 1], trail[i]);
      OneEventJobs(env, retain, answers, trail[i - 1], events[i - 1], results[i - 1], trail[i]);
    }
  }

  lemma OneEventAdds(env: Env, retain: nat, answers: Answers, a: Point, e: Event, r: Option<Result<SyncResult,
                     SyncError>>, b: Point)
    requires Happens(env, retain, answers, a, e, r, b) && CleanEvent(env, a.disk, e)
    ensures Extends(a.disk, b.disk)
  {
    hide After, WritesCleanly, Fetched, Blamed, Sourced, Continued, Extends;
    if e.Do? { CleanOnlyAdds(env, retain, a.disk, e.op); }
  }

  /** Once a fetch that began with an incomplete target has succeeded, every ancestor of that target is here for good.
      */
  lemma {:induction false} WholeForGood(env: Env, retain: nat, answers: Answers, trail: seq<Point>, events: seq<Event>,
                                        results: seq<Option<Result<SyncResult, SyncError>>>, i: nat, j: nat)
    requires Trail(env, retain, answers, trail, events, results) && AllJobsOk(trail[0].disk, trail[0].jobs)
    requires i < j <= |events| && CleanTrail(env, trail, events) && Brings(env, trail, events, results, i)
    ensures Whole(env, trail[j].disk, events[i].target)
    decreases j
  {
    hide After, WritesCleanly, Blamed, Sourced, Continued, Extends, Complete, Whole, Gained, HeadsOk, AllJobsOk, OpFits;
    assert Happens(env, retain, answers, trail[j - 1], events[j - 1], results[j - 1], trail[j]);
    if j == i + 1 {
      JobsStayOk(env, retain, answers, trail, events, results, i);
    } else {
      WholeForGood(env, retain, answers, trail, events, results, i, j - 1);
      OneEventAdds(env, retain, answers, trail[j - 1], events[j - 1], results[j - 1], trail[j]);
      WholeGrows(env, trail[j - 1].disk, trail[j].disk, events[i].target);
    }
  }

  /** Fetches of any targets from any peers, cut short by crashes or not, and between them any other operations
      but collections; only the disk carries over. The checkpoints stay right throughout. And if ever a fetch that
      began with an incomplete target succeeds, every ancestor of that target is here from then on, unless an operation
      writes an object in place of a different one. */
  method Attempts(vault: Vault, net: Net, jobs: map<Cid, Job>, events: seq<Event>)
    returns (left: map<Cid, Job>, results: seq<Option<Result<SyncResult, SyncError>>>, ghost trail: seq<Point>)
    requires vault.Valid() && AllJobsOk(vault.disk, jobs) && forall i :: 0 <= i < |events| ==> EventFits(events[i])
    modifies vault`disk, vault`clash, vault`versions, net
    ensures vault.Valid() && AllJobsOk(vault.disk, left)
    ensures Trail(vault.env, vault.retain, net.answers, trail, events, results)
    ensures trail[0] == Point(old(vault.disk), jobs, old(net.log))
              && trail[|events|] == Point(vault.disk, left, net.log)
    ensures vault.clash.None? <==> old(vault.clash).None? && CleanTrail(vault.env, trail, events)
    ensures CleanTrail(vault.env, trail, events) ==>
              forall i :: 0 <= i < |events| && Brings(vault.env, trail, events, results, i) ==>
                  Whole(vault.env, vault.disk, events[i].target)
  {
    hide StoreOk, Trusted, Represents, IsClash, Happens, Trail, CleanTrail, After, WritesCleanly, Listed, Follows,
      Succeeds, AllJobsOk, Keeps, Extends, Whole, EventFits, CleanEvent;
    left, results, trail := jobs, [], [Point(vault.disk, jobs, net.log)];
    TrailStarts(vault.env, vault.retain, net.answers, trail);
    for i := 0 to |events|
      invariant vault.Valid() && AllJobsOk(vault.disk, left)
      invariant |trail| == i + 1 && |results| == i
      invariant trail[0] == Point(old(vault.disk), jobs, old(net.log)) && trail[i] == Point(vault.disk, left, net.log)
      invariant Trail(vault.env, vault.retain, net.answers, trail, events[..i], results)
      invariant vault.clash.None? <==> old(vault.clash).None? && CleanTrail(vault.env, trail, events[..i])
    {
      assert EventFits(events[i]);
      var r;
      left, r := OneEvent(vault, net, left, events[i]);
      TrailStep(vault.env, vault.retain, net.answers, trail, events[..i], results, events[i], r,
          Point(vault.disk, left, net.log));
      assert events[..i + 1] == events[..i] + [events[i]];
      results, trail := results + [r], trail + [Point(vault.disk, left, net.log)];
    }
    assert events[..|events|] == events;
    if CleanTrail(vault.env, trail, events) {
      forall i | 0 <= i < |events| && Brings(vault.env, trail, events, results, i)
        ensures Whole(vault.env, vault.disk, events[i].target)
      {
        WholeForGood(vault.env, vault.retain, net.answers, trail, events, results, i, |events|);
      }
    }
  }

  /** One event: what carries over is the disk. */
  method OneEvent(vault: Vault, net: Net, jobs: map<Cid, Job>, e: Event)
    returns (left: map<Cid, Job>, r: Option<Result<SyncResult, SyncError>>)
    requires vault.Valid() && AllJobsOk(vault.disk, jobs) && EventFits(e)
    modifies vault`disk, vault`clash, vault`versions, net
    ensures vault.Valid() && AllJobsOk(vault.disk, left)
    ensures Happens(vault.env, vault.retain, net.answers, Point(old(vault.disk), jobs, old(net.log)), e, r,
              Point(vault.disk, left, net.log))
    ensures vault.clash.None? <==> old(vault.clash).None? && CleanEvent(vault.env, old(vault.disk), e)
  {
    hide StoreOk, Trusted, Represents, IsClash, Fetches, After, WritesCleanly, Listed, Follows, Succeeds, AllJobsOk,
      Keeps, Extends, OpFits;
    ghost var a := Point(vault.disk, jobs, net.log);
    match e {
      case Do(op) =>
        var _ := Step(vault, op);
        left, r := jobs, None;
      case Fetch(peers, target, setHead, life) =>
        var one;
        left, one := OneFetch(vault, net, jobs, peers, target, setHead, life);
        r := Some(one);
    }
    OneEventJobs(vault.env, vault.retain, net.answers, a, e, r, Point(vault.disk, left, net.log));
  }

  /** A process that runs one fetch on what is on disk. */
  method OneFetch(vault: Vault, net: Net, jobs: map<Cid, Job>, peers: seq<Peer>, target: Cid, setHead: bool,
                  life: Option<nat>)
    returns (left: map<Cid, Job>, r: Result<SyncResult, SyncError>)
    requires vault.Valid() && AllJobsOk(vault.disk, jobs)
    modifies vault`disk, vault`clash, vault`versions, net
    ensures vault.Valid() && vault.clash == old(vault.clash)
    ensures Fetches(vault.env, net.answers, Point(old(vault.disk), jobs, old(net.log)),
              Fetch(peers, target, setHead, life), r,
              Point(vault.disk, left, net.log))
  {
    hide StoreOk, Trusted, Represents, IsClash, JobOk, Complete, Whole, Blamed, Explains, LoadCommit, Extends,
      HeadsOk, Sourced, Continued, Gained, NotStored, Resumed, ListsAll, Stuck;
    var engine := new Engine(vault, net, jobs, life);
    ghost var turns;
    r, turns := engine.FetchDag(peers, target, setHead);
    left := engine.jobs;
  }

  lemma TrailStarts(env: Env, retain: nat, answers: Answers, trail: seq<Point>)
    requires |trail| == 1
    ensures Trail(env, retain, answers, trail, [], []) && CleanTrail(env, trail, [])
  {
  }

  lemma TrailStep(env: Env, retain: nat, answers: Answers, trail: seq<Point>, events: seq<Event>,
                  results: seq<Option<Result<SyncResult, SyncError>>>,
                  e: Event, r: Option<Result<SyncResult, SyncError>>, b: Point)
    requires Trail(env, retain, answers, trail, events, results)
              && Happens(env, retain, answers, trail[|events|], e, r, b)
    ensures Trail(env, retain, answers, trail + [b], events + [e], results + [r])
    ensures CleanTrail(env, trail + [b], events + [e]) <==>
              CleanTrail(env, trail, events) && CleanEvent(env, trail[|events|].disk, e)
  {
    hide Happens, CleanEvent;
    var t, v, s := trail + [b], events + [e], results + [r];
    forall i, j | 0 <= i < |v| && j == i + 1 ensures Happens(env, retain, answers, t[i], v[i], s[i], t[j]) {
      if i < |events| { assert Happens(env, retain, answers, trail[i], events[i], results[i], trail[j]); }
    }
    assert forall i :: 0 <= i < |events| ==> t[i] == trail[i] && v[i] == events[i];
    assert t[|events|] == trail[|events|] && v[|events|] == e;
  }

  // ---------------------------------------------------------------------------------------------
  // Where the promise ends
  // ---------------------------------------------------------------------------------------------

  /** GC between two attempts leaves a checkpoint right exactly when everything it lists is live: the sync jobs are
      not among the roots. */
  lemma JobSurvivesGc(env: Env, d: Disk, job: Job)
    requires JobOk(d, job)
    ensures JobOk(Collected(env, d), job) <==>
              && job.doneCommits <= LiveObjects(env, d)
              && job.doneTrees <= LiveObjects(env, d)
              && job.doneChunks <= LiveChunks(env, d, Roots(d))
  {
    hide LiveObjects, LiveChunks;
    var d' := Collected(env, d);
    assert forall h :: h in d.commits ==> (h in d'.commits <==> h in LiveObjects(env, d));
    assert forall h :: h in d.trees ==> (h in d'.trees <==> h in LiveObjects(env, d));
    assert forall h :: h in d.chunks ==> (h in d'.chunks <==> h in LiveChunks(env, d, Roots(d)));
  }

  /** What a collection does to a fetch that was under way, when its checkpoint was right and lists the target: no fetch
      of that target can succeed any more (`Sync.Engine.FetchDag`) if and only if the target is no longer live, or is
      kept without its tree or a chunk that the checkpoint lists. */
  lemma StrandedByGc(env: Env, d: Disk, jobs: map<Cid, Job>, target: Cid)
    requires JobOk(d, Resumed(jobs, target)) && target in Resumed(jobs, target).doneCommits
    ensures Stuck(env, Collected(env, d), jobs, target) <==>
              || target !in LiveObjects(env, d)
              || !(TreeName(env, d, target) * Resumed(jobs, target).doneTrees <= LiveObjects(env, d))
              || (TreeName(env, d, target) <= LiveObjects(env, d)
                  && !(ChunkNames(env, d, target) * Resumed(jobs, target).doneChunks <= LiveChunks(env, d, Roots(d))))
    ensures target in LiveCommits(env, d, Roots(d)) ==> !Stuck(env, Collected(env, d), jobs, target)
  {
    hide LiveObjects, LiveChunks, Resumed, LiveCommits, TreeName, ChunkNames, Roots, Collected;
    var d', job := Collected(env, d), Resumed(jobs, target);
    forall h ensures h in d'.commits <==> h in d.commits && h in LiveObjects(env, d) { CollectedLeaves(env, d, h); }
    forall h ensures h in d'.trees <==> h in d.trees && h in LiveObjects(env, d) { CollectedLeaves(env, d, h); }
    forall h
      ensures h in d'.chunks <==> h in d.chunks && h in LiveChunks(env, d, Roots(d))
    {
      CollectedLeaves(env, d, h);
    }
    if target in LiveObjects(env, d) { CollectedNames(env, d, target); }
    if target in LiveCommits(env, d, Roots(d)) { LiveNames(env, d, target); }
  }

  /** What a commit that is left names. */
  lemma CollectedNames(env: Env, d: Disk, c: Cid)
    requires c in d.commits && c in LiveObjects(env, d)
    ensures var d' := Collected(env, d);
            && TreeName(env, d', c) == TreeName(env, d, c)
            && ChunkNames(env, d', c) == if TreeName(env, d, c) <= LiveObjects(env, d) then ChunkNames(env, d, c)
                 else {}
  {
    hide LiveObjects, LiveChunks, CommitOf, TreeOf, Roots;
  }

  lemma LiveNames(env: Env, d: Disk, c: Cid)
    requires c in LiveCommits(env, d, Roots(d))
    ensures c in LiveObjects(env, d) && TreeName(env, d, c) <= LiveObjects(env, d)
    ensures ChunkNames(env, d, c) <= LiveChunks(env, d, Roots(d))
  {
    hide LiveCommits, TreeName, ChunkNames, Roots;
    LiveIsHere(env, d);
  }

  /** The fast path looks at the target alone: with any hash function and any two parents there is a sound disk on
      which a commit is complete and yet not all of its ancestors are there. */
  lemma FastPathLeavesGaps(env: Env, p: Cid, q: Cid, now: u64) returns (d: Disk, c: Cid)
    requires Trusted(env) && p != q
    ensures StoreOk(env, d) && Complete(env, d, c) && !Whole(env, d, c)
  {
    hide CommitOf, CommitWire, TreeOf, TreeWire, MakeCommit, SignatureOk, GoodCommit, CommitFits, RestoreTree,
      Trusted, StoreOk, TreeSaved;
    EmptyIsSound(env);
    EmptyIsEncodable();
    var d0 := TreeSaved(env, EMPTY, map[]);
    TreeSavedOk(env, EMPTY, map[]);
    var tree := env.H(TreeWire(map[]));
    NothingElse(env);
    EmptyText();
    CommitSavedOk(env, d0, tree, [p, q], [], now);
    d := CommitSaved(env, d0, MakeCommit(env, tree, [p, q], [], now));
    c := d.head.value;
    assert LoadTree(env, d, tree) == Ok(map[]);
    OneCommitIsNotWhole(env, d, c, p, q);
  }

  lemma EmptyText()
    ensures TextFits([])
  {
  }

  lemma NothingElse(env: Env)
    ensures TreeSaved(env, EMPTY, map[]).commits == map[]
  {
    hide TreeWire;
  }

  lemma OneCommitIsNotWhole(env: Env, d: Disk, c: Cid, p: Cid, q: Cid)
    requires d.commits.Keys == {c} && p != q && IsParent(env, d, p, c) && IsParent(env, d, q, c)
    ensures !Whole(env, d, c)
  {
    hide CommitOf, TreeOf, HasChunks;
  }
}
