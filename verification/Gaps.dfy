/** Two runs of the network side on the vault of module Toy in which something is missing at the end. */
module Gaps {
  import opened Bytes
  import opened Paths
  import opened Trees
  import opened Cbor
  import opened TreeCodec
  import opened Frames
  import opened Commits
  import opened Disks
  import opened Versions
  import opened Reach
  import opened Gc
  import opened Network
  import opened Vaults
  import opened Sync
  import opened Provide
  import opened Toy

  // ---------------------------------------------------------------------------------------------
  // A tree that is a chunk
  // ---------------------------------------------------------------------------------------------

  /** A tree with one file, called "a", of one chunk. */
  function FileTree(size: u64, k: Cid): TreeMap { map[[97] := File(size, [k])] }

  lemma FileTreeIsWire(size: u64, k: Cid)
    ensures WireTree(FileTree(size, k)) && Encodable(FileTree(size, k))
  {
    var p: Path := [97];
    AsciiIsUtf8(p);
    SplitNoSlash(p);
    assert Split(p) == [p];
  }

  lemma OnePair(size: u64, k: Cid)
    ensures Pairs(FileTree(size, k)) == [([97], File(size, [k]))]
  {
    var t := FileTree(size, k);
    SortedKeysInOrder(t.Keys);
    KeyOrderUnique(SortedKeys(t.Keys), [[97]], t.Keys);
  }

  lemma FileTreeLength(size: u64, k: Cid)
    ensures Encodable(FileTree(size, k)) && |TreeWire(FileTree(size, k))| == 61 + |UintBytes(0, size)|
  {
    hide Pairs, SortedKeys, UintBytes, CidsBytes;
    var t, e := FileTree(size, k), File(size, [k]);
    FileTreeIsWire(size, k);
    OnePair(size, k);
    PairsOfFit(t);
    SmallHead(5, 1);
    SmallHead(0, 1);
    SmallHead(0, 0);
    SmallHead(0, 2);
    SmallHead(0, 3);
    SmallHead(3, 1);
    SmallHead(4, 1);
    SmallHead(5, 3);
    CidsLength([k]);
    OnePairBytes(([97], e));
  }

  lemma OnePairBytes(x: Pair)
    requires PairFits(x)
    ensures PairsBytes([x]) == PairBytes(x)
  {
    hide PairBytes;
    assert [x][1..] == [];
    assert PairsBytes([]) == [];
  }

  const K: Cid := Name(1)
  const N2: Cid := Name(62)
  const N1: Cid := Name(63)
  const P: Cid := Name(162)
  const TIP: Cid := Name(196)

  lemma Distinct()
    ensures K != N2 && K != N1 && K != P && K != TIP && N2 != N1 && N2 != P && N2 != TIP && N1 != P && N1 != TIP
              && P != TIP
  {
    hide Name;
    forall a, b | a in {1, 62, 63, 162, 196} && b in {1, 62, 63, 162, 196} && a != b ensures Name(a) != Name(b) {
      if Name(a) == Name(b) { NamesDiffer(a, b); }
    }
  }

  function InnerTree(): TreeMap { FileTree(1, K) }

  function OuterTree(): TreeMap { FileTree(62, N2) }

  /** The tip's file is the parent's tree, byte for byte. */
  function TipDisk(): Disk {
    TreeNames();
    ShortText(0);
    var d0 := EMPTY.(chunks := map[K := [120], N2 := TreeWire(InnerTree())]);
    var d2 := TreeSaved(TOY, TreeSaved(TOY, d0, InnerTree()), OuterTree());
    Grown(Grown(d2, N2, [], Letters(0)), N1, [P], Letters(0))
  }

  /** What is on that disk. */
  ghost predicate TreeAsFile(d: Disk) {
    && StoreOk(TOY, d) && d.commits.Keys == {P, TIP} && d.chunks.Keys == {K, N2} && d.trees.Keys == {N1, N2}
    && LoadTree(TOY, d, N2) == Ok(InnerTree()) && LoadTree(TOY, d, N1) == Ok(OuterTree())
    && LoadCommit(TOY, d, P).Ok? && LoadCommit(TOY, d, P).value.tree == N2 && LoadCommit(TOY, d, P).value.parents == []
    && LoadCommit(TOY, d, TIP).Ok? && LoadCommit(TOY, d, TIP).value.tree == N1
         && LoadCommit(TOY, d, TIP).value.parents == [P]
  }

  lemma TipDiskIs()
    ensures TreeAsFile(TipDisk())
  {
    hide CommitOf, TreeOf, StoreOk, Name, Grown, Extends, TreeWire, WireTree, Encodable, FileTree;
    Distinct();
    TreeNames();
    var w := TreeWire(InnerTree());
    var d0 := EMPTY.(chunks := map[K := [120], N2 := w]);
    ChunksOk(d0);
    TreeSavedOk(TOY, d0, InnerTree());
    var d1 := TreeSaved(TOY, d0, InnerTree());
    TreeSavedOk(TOY, d1, OuterTree());
    var d2 := TreeSaved(TOY, d1, OuterTree());
    TreeStays(d1, d2, N2);
    ShortText(0);
    GrownOk(d2, N2, [], Letters(0));
    var d3 := Grown(d2, N2, [], Letters(0));
    GrownOk(d3, N1, [P], Letters(0));
  }

  lemma TreeNames()
    ensures Encodable(InnerTree()) && WireTree(InnerTree()) && TOY.H(TreeWire(InnerTree())) == N2
    ensures Encodable(OuterTree()) && WireTree(OuterTree()) && TOY.H(TreeWire(OuterTree())) == N1
  {
    hide TreeWire, Name, UintBytes;
    FileTreeIsWire(1, K);
    FileTreeLength(1, K);
    SmallHead(0, 1);
    FileTreeIsWire(62, N2);
    FileTreeLength(62, N2);
    MediumHead(0, 62);
  }

  lemma ChunksOk(d: Disk)
    requires d.trees == map[] && d.commits == map[] && forall h :: h in d.chunks ==> TOY.H(d.chunks[h]) == h
    ensures StoreOk(TOY, d)
  {
  }

  lemma TreeStays(d: Disk, d': Disk, t: Cid)
    requires Extends(d, d') && t in d.trees
    ensures LoadTree(TOY, d', t) == LoadTree(TOY, d, t)
  {
    hide TreeOf;
  }

  /** Both commits are on the tip's line, and complete. */
  lemma TipLine(d: Disk)
    requires TreeAsFile(d)
    ensures Line(TOY, d, TIP) == {TIP, P} && LineComplete(TOY, d, TIP)
    ensures TreeName(TOY, d, TIP) == {N1} && ChunkNames(TOY, d, TIP) == {N2}
    ensures TreeName(TOY, d, P) == {N2} && ChunkNames(TOY, d, P) == {K}
  {
    hide LoadCommit, LoadTree, StoreOk, Name, Closure;
    var g := GraphOf(TOY, d);
    RootReachable(g, {TIP}, TIP);
    ParentReachable(g, {TIP}, TIP, P);
    assert ClosedUnder(g, {TIP}, {TIP, P});
    ClosureIsLeast(g, {TIP}, {TIP, P});
    NamesOf(TOY, d, TIP);
    NamesOf(TOY, d, P);
    OneChunk(62, N2);
    OneChunk(1, K);
  }

  lemma OneChunk(size: u64, k: Cid)
    ensures ChunksOf(FileTree(size, k)) == {k}
  {
    var p: Path, t := [97], FileTree(size, k);
    assert p in t && t[p].File? && k in t[p].chunks;
    assert forall h :: h in ChunksOf(t) ==> h == k;
  }

  /** The walk through such a line collects everything but the inner tree's chunk. */
  lemma WalkMissesK(d: Disk, order: seq<Cid>)
    requires TreeAsFile(d) && Line(TOY, d, TIP) == {TIP, P} && Walked(TOY, d, TIP, order)
    requires TreeName(TOY, d, TIP) == {N1} && ChunkNames(TOY, d, TIP) == {N2}
    ensures K !in BlobsAfter(TOY, d, order)
  {
    hide LoadCommit, LoadTree, Name, Line, TreeName, ChunkNames, StoreOk, TreeAsFile, BlobsStep;
    Distinct();
    TwoInOrder(order);
    assert order[..1] == [TIP] && [TIP][..0] == [];
    StepsOfWalk(d);
    assert BlobsAfter(TOY, d, []) == {};
    assert BlobsAfter(TOY, d, [TIP]) == BlobsStep(TOY, d, {}, TIP);
    assert BlobsAfter(TOY, d, order) == BlobsStep(TOY, d, {TIP, N1, N2}, P);
  }

  lemma StepsOfWalk(d: Disk)
    requires TreeAsFile(d)
    requires TreeName(TOY, d, TIP) == {N1} && ChunkNames(TOY, d, TIP) == {N2}
    ensures BlobsStep(TOY, d, {}, TIP) == {TIP, N1, N2} && BlobsStep(TOY, d, {TIP, N1, N2}, P) == {TIP, N1, N2, P}
  {
    hide LoadCommit, LoadTree, Name, StoreOk, TreeName, ChunkNames;
    Distinct();
  }

  lemma TwoInOrder(order: seq<Cid>)
    requires order != [] && order[0] == TIP && TIP != P && (forall c :: c in order <==> c in {TIP, P})
    requires forall i, j :: 0 <= i < j < |order| ==> order[i] != order[j]
    ensures order == [TIP, P]
  {
    hide Name;
    assert P in order;
    var j :| 0 <= j < |order| && order[j] == P;
    Which(order, j, 1);
    Which(order, j, 2);
  }

  lemma Which(order: seq<Cid>, j: nat, i: nat)
    requires order != [] && order[0] == TIP && (forall c :: c in order ==> c in {TIP, P}) && j < |order|
              && order[j] == P
    requires forall i, j :: 0 <= i < j < |order| ==> order[i] != order[j]
    ensures i < |order| ==> i == 0 || i == j
  {
    hide Name;
    if i < |order| { assert order[i] in order; }
  }

  /** `collect_provide_hashes` omits a chunk: the tip's chunk has the parent's tree for its content, so when the walk
      comes to the parent the tree's name is taken, and the tree's own chunk is never emitted. */
  method ProviderOmitsAChunk() returns (d: Disk, r: Result<Items, ProvideError>)
    ensures StoreOk(TOY, d) && LineComplete(TOY, d, TIP) && r.Ok?
    ensures P in Line(TOY, d, TIP) && Asked(TOY, d, P, K) && K in d.chunks && !Named(r.value, K)
  {
    hide LoadCommit, LoadTree, StoreOk, Name, LineComplete, Genuine, Line, SkipsNothing, Named, TreeName, ChunkNames,
      BlobsAfter, Walked, WalkOrder, TipDisk;
    TipDiskIs();
    d := TipDisk();
    TipLine(d);
    Distinct();
    r := CollectProvide(TOY, d, TIP);
    WalkMissesK(d, WalkOrder(TOY, d, TIP));
  }

  // ---------------------------------------------------------------------------------------------
  // A resumed fetch that adopts a head without its ancestors
  // ---------------------------------------------------------------------------------------------

  const GAP: Cid := Name(5)
  const TREE: Cid := Name(19)

  /** The target: a commit of the empty tree, whose parent nobody has. */
  function TargetWire(): bytes {
    ShortText(0);
    CommitLength(TREE, [GAP], Letters(0));
    CommitWire(TOY.H, ToyCommit(TREE, [GAP], Letters(0)))
  }

  /** What every peer has: the target and its tree. */
  function Answer(p: Peer, k: Cid, n: nat): Option<bytes> {
    if k == TIP then Some(TargetWire()) else if k == TREE then Some(EMPTY_WIRE) else None
  }

  /** What can be made of these answers. */
  lemma TargetIsGood()
    ensures GoodObject(TOY, TIP, TargetWire()) && |TargetWire()| == 196
    ensures CommitOf(TOY.H, TIP, TargetWire()).Ok?
    ensures CommitOf(TOY.H, TIP, TargetWire()).value.tree == TREE
              && CommitOf(TOY.H, TIP, TargetWire()).value.parents == [GAP]
    ensures TreeOf(TOY.H, TREE, EMPTY_WIRE) == Ok(map[]) && |EMPTY_WIRE| == 19
    ensures GAP != TIP && GAP != TREE && TREE != TIP
  {
    hide CommitOf, TreeOf, GoodObject, Name, MakeCommit, EmptyWire, StoreOk, Grown, TargetWire, Extends;
    StartOk();
    EmptyTreeLength();
    GapApart();
    ShortText(0);
    GrownOk(START, TREE, [GAP], Letters(0));
    var d := Grown(START, TREE, [GAP], Letters(0));
    TargetInGrown();
    SoundObject(d, TIP);
  }

  lemma TargetInGrown()
    ensures var d := Grown(START, TREE, [GAP], Letters(0)); TIP in d.commits && d.commits[TIP] == TargetWire()
    ensures |TargetWire()| == 196
    ensures START.trees[TREE] == EMPTY_WIRE
  {
    hide CommitWire, MakeCommit, Name, EmptyWire;
    ShortText(0);
    CommitLength(TREE, [GAP], Letters(0));
  }

  lemma GapApart()
    ensures GAP != TIP && GAP != TREE && TREE != TIP
  {
    hide Name;
    forall a, b | a in {5, 19, 196} && b in {5, 19, 196} && a != b ensures Name(a) != Name(b) {
      if Name(a) == Name(b) { NamesDiffer(a, b); }
    }
  }

  lemma SoundObject(d: Disk, h: Cid)
    requires StoreOk(TOY, d) && h in d.commits
    ensures GoodObject(TOY, h, d.commits[h])
  {
    hide GoodObject, TreeOf;
  }

  /** What came from a peer is what all peers answer. */
  lemma OnlyAnswers(log: seq<Exchange>, peers: seq<Peer>, k: Cid, data: bytes)
    requires Continued(Answer, [], log) && FromPeer(log, 0, peers, k, data)
    ensures (k == TIP && data == TargetWire()) || (k == TREE && data == EMPTY_WIRE)
  {
    hide TargetWire, EmptyWire, Name;
  }

  /** After any fetch into an empty vault. */
  lemma AfterFetch(d: Disk, log: seq<Exchange>, peers: seq<Peer>)
    requires Sourced(TOY, log, 0, peers, EMPTY, d, TIP) && Continued(Answer, [], log)
    ensures GAP !in d.commits
    ensures TIP in d.commits ==> LoadCommit(TOY, d, TIP) == CommitOf(TOY.H, TIP, TargetWire())
    ensures TREE in d.trees ==> LoadTree(TOY, d, TREE) == Ok(map[])
    ensures !Whole(TOY, d, TIP)
  {
    hide CommitOf, TreeOf, WantedCommit, WantedTree, WantedChunk, FromPeer, Continued, Name, TargetWire, GoodObject,
      EmptyWire;
    TargetIsGood();
    if GAP in d.commits { OnlyAnswers(log, peers, GAP, d.commits[GAP]); }
    if TIP in d.commits { OnlyAnswers(log, peers, TIP, d.commits[TIP]); }
    if TREE in d.trees { OnlyAnswers(log, peers, TREE, d.trees[TREE]); }
    NotWhole(d);
  }

  lemma NotWhole(d: Disk)
    requires GAP !in d.commits && (TIP in d.commits ==> LoadCommit(TOY, d, TIP) == CommitOf(TOY.H, TIP, TargetWire()))
    ensures !Whole(TOY, d, TIP)
  {
    hide CommitOf, TreeOf, HasChunks, Name, TargetWire, GoodObject;
    TargetIsGood();
    WholeHasParents(d, TIP, GAP);
  }

  lemma WholeHasParents(d: Disk, c: Cid, p: Cid)
    ensures Whole(TOY, d, c) ==> c in d.commits && (IsParent(TOY, d, p, c) ==> p in d.commits)
  {
    hide CommitOf, TreeOf, HasChunks;
    if Whole(TOY, d, c) {
      var s :| c in s && WholeSet(TOY, d, s);
      assert Complete(TOY, d, c);
      assert IsParent(TOY, d, p, c) ==> Complete(TOY, d, p);
    }
  }

  /** No error is about the target itself: the peers have it and its tree, and both are good. */
  lemma TargetIsServed(d: Disk, log: seq<Exchange>, peer: Peer, e: SyncError)
    requires Sourced(TOY, log, 0, [peer], EMPTY, d, TIP) && Continued(Answer, [], log)
    ensures !Explains(TOY, log, 0, [peer], d, TIP, e)
  {
    hide LoadCommit, LoadTree, Sourced, FromPeer, GoodObject, CommitOf, TreeOf, Name, TargetWire, EmptyWire,
      Continued, AllFailed;
    TargetIsGood();
    AfterFetch(d, log, [peer]);
    TargetNames(d, log, [peer]);
    match e {
      case Unavailable(k) =>
        if Asked(TOY, d, TIP, k) { HasIt(log, peer, k); }
      case BadCommit(k, data) =>
        if FromPeer(log, 0, [peer], k, data) { OnlyAnswers(log, [peer], k, data); }
      case BadTree(k, data) =>
        if FromPeer(log, 0, [peer], k, data) { OnlyAnswers(log, [peer], k, data); }
      case _ =>
    }
  }

  lemma TargetNames(d: Disk, log: seq<Exchange>, peers: seq<Peer>)
    requires TIP in d.commits ==> LoadCommit(TOY, d, TIP) == CommitOf(TOY.H, TIP, TargetWire())
    requires TREE in d.trees ==> LoadTree(TOY, d, TREE) == Ok(map[])
    ensures forall k :: Asked(TOY, d, TIP, k) ==> k == TIP || k == TREE
    ensures TreeName(TOY, d, TIP) <= {TREE}
  {
    hide CommitOf, TreeOf, Name, TargetWire;
    TargetIsGood();
  }

  lemma HasIt(log: seq<Exchange>, peer: Peer, k: Cid)
    requires Continued(Answer, [], log) && (k == TIP || k == TREE)
    ensures !AllFailed(TOY.H, log, 0, [peer], k)
  {
    hide Name, TargetWire, EmptyWire;
    TargetNamed();
    assert peer in [peer];
    forall i | 0 <= i < |log| && log[i].k == k ensures Checked(TOY.H, log[i].answer, k).Some? {
      assert log[i].answer == Answer(log[i].peer, k, i);
    }
  }

  lemma TargetNamed()
    ensures TOY.H(TargetWire()) == TIP && |TargetWire()| == 196 && TOY.H(EMPTY_WIRE) == TREE && |EMPTY_WIRE| == 19
              && TREE != TIP
  {
    hide TargetWire, EmptyWire, CommitOf, TreeOf, GoodObject, Name;
    TargetIsGood();
  }

  /** An empty vault, one peer that has the target and its tree, and nobody who has the parent. The first fetch fails
      on the parent; the second finds the target complete, succeeds without asking anyone, and makes it HEAD. */
  method ResumeAdoptsAGap(peer: Peer)
    returns (vault: Vault, first: Result<SyncResult, SyncError>, second: Result<SyncResult, SyncError>)
    ensures vault.Valid() && first.Err? && second.Ok?
    ensures vault.disk.head == Some(TIP) && !Whole(vault.env, vault.disk, TIP) && GAP !in vault.disk.commits
    ensures IsParent(vault.env, vault.disk, GAP, TIP)
  {
    hide StoreOk, Trusted, Represents, IsClash, LoadCommit, Complete, Whole, Blamed, Explains, Sourced, Continued,
      Name, TargetWire, Extends, HeadsOk, Gained;
    ToyIsTrusted();
    vault := new Vault(TOY, 0);
    var net := new Net(Answer);
    var engine := new Engine(vault, net, map[], None);
    ghost var turns;
    NothingComplete(TIP);
    first, turns := engine.FetchDag([peer], TIP, true);
    AfterFetch(vault.disk, net.log, [peer]);
    if first.Err? { TargetIsServed(vault.disk, net.log, peer, first.error); }
    ghost var d := vault.disk;
    if first.Err? { NotForLackOfPeers(TOY, net.log, [peer], d, first.error); }
    ghost var log := net.log;
    var again := new Engine(vault, net, engine.jobs, None);
    second, turns := again.FetchDag([peer], TIP, true);
    NothingSaid(TOY, log, [peer], d, vault.disk);
    CompleteIsHere(d, TIP);
    GapIsParent(d, vault.disk);
  }

  /** A fetch, a collection, and a fetch again. The first has stored the target and fails on the parent; nothing leads
      to the target yet, so the collection takes it away, and the checkpoint that was right goes on listing it. The
      second cannot succeed, whoever is asked and whatever is answered. */
  method CollectionStrandsAJob(peer: Peer, answers: Answers, peers: seq<Peer>, setHead: bool, life: Option<nat>)
    returns (vault: Vault, jobs: map<Cid, Job>, before: Disk, second: Result<SyncResult, SyncError>)
    ensures StoreOk(TOY, before) && JobOk(before, Resumed(jobs, TIP))
    ensures !JobOk(Collected(TOY, before), Resumed(jobs, TIP)) && Stuck(TOY, Collected(TOY, before), jobs, TIP)
    ensures vault.Valid() && second.Err? && TIP !in vault.disk.commits
  {
    hide StoreOk, Trusted, Represents, IsClash, LoadCommit, Complete, Whole, Blamed, Explains, Sourced, Continued,
      Name, TargetWire, Extends, Gained, NotStored, Stuck, Resumed, Collected, ListsAll, JobOk;
    ToyIsTrusted();
    vault := new Vault(TOY, 0);
    var net := new Net(Answer);
    var engine := new Engine(vault, net, map[], None);
    ghost var turns;
    NothingComplete(TIP);
    var first;
    first, turns := engine.FetchDag([peer], TIP, true);
    AfterFetch(vault.disk, net.log, [peer]);
    if first.Err? { TargetIsServed(vault.disk, net.log, peer, first.error); }
    if first.Err? { NotForLackOfPeers(TOY, net.log, [peer], vault.disk, first.error); }
    before, jobs := vault.disk, engine.jobs;
    ResumedIsOk(before, jobs, TIP);
    var _ := vault.GcAll();
    NothingLive(before, jobs);
    ghost var d := vault.disk;
    var later := new Net(answers);
    var again := new Engine(vault, later, jobs, life);
    second, turns := again.FetchDag(peers, TIP, setHead);
    NeverStored(before, d, vault.disk, jobs);
  }

  lemma ResumedIsOk(d: Disk, jobs: map<Cid, Job>, target: Cid)
    requires forall t :: t in jobs ==> JobOk(d, jobs[t])
    ensures JobOk(d, Resumed(jobs, target))
  {
  }

  /** With no HEAD, no HEADS and no registered snapshot nothing is live. */
  lemma NothingLive(d: Disk, jobs: map<Cid, Job>)
    requires d.head.None? && d.heads == {} && d.registry == [] && JobOk(d, Resumed(jobs, TIP))
              && TIP in Resumed(jobs, TIP).doneCommits
    ensures TIP !in Collected(TOY, d).commits && Stuck(TOY, Collected(TOY, d), jobs, TIP)
              && !JobOk(Collected(TOY, d), Resumed(jobs, TIP))
  {
    hide LoadCommit, Name, Resumed, ChunkNames, Closure;
    assert Roots(d) == {};
    ClosureIsLeast(GraphOf(TOY, d), {}, {});
    assert LiveCommits(TOY, d, Roots(d)) == {};
    CollectedLeaves(TOY, d, TIP);
  }

  /** What a checkpoint lists is not stored again. */
  lemma NeverStored(before: Disk, d: Disk, d': Disk, jobs: map<Cid, Job>)
    requires JobOk(before, Resumed(jobs, TIP)) && TIP in Resumed(jobs, TIP).doneCommits
    requires TIP !in d.commits && NotStored(d, d', Resumed(jobs, TIP))
    ensures TIP !in d'.commits
  {
    hide Name, Resumed;
  }

  lemma CompleteIsHere(d: Disk, c: Cid)
    requires Complete(TOY, d, c)
    ensures c in d.commits
  {
  }

  lemma NothingComplete(c: Cid)
    ensures !Complete(TOY, EMPTY, c)
  {
  }

  lemma NotForLackOfPeers(env: Env, log: seq<Exchange>, peers: seq<Peer>, d: Disk, e: SyncError)
    requires Blamed(env, log, 0, peers, d, TIP, true, e) && peers != []
    ensures e != NoPeers
  {
  }

  /** Where nothing is said nothing is fetched. */
  lemma NothingSaid(env: Env, log: seq<Exchange>, peers: seq<Peer>, d: Disk, d': Disk)
    requires Sourced(env, log, |log|, peers, d, d', TIP)
    ensures d'.commits.Keys <= d.commits.Keys
  {
    hide WantedCommit, WantedTree, WantedChunk, Name;
  }

  lemma GapIsParent(d: Disk, d': Disk)
    requires Complete(TOY, d, TIP) && LoadCommit(TOY, d, TIP) == CommitOf(TOY.H, TIP, TargetWire()) && Extends(d, d')
    ensures IsParent(TOY, d', GAP, TIP)
  {
    hide CommitOf, TreeOf, HasChunks, Name, TargetWire, GoodObject;
    TargetIsGood();
    ExtendsRestore(TOY, d, d', TIP);
  }
}
