/** Inputs on which a claim about src/vault.rs or src/sync.rs fails, on the vault of module Toy. */
module Witnesses {
  import opened Bytes
  import opened Paths
  import opened Trees
  import opened Frames
  import opened Commits
  import opened Disks
  import opened Versions
  import opened Merging
  import opened Reach
  import opened Gc
  import opened Toy

  // ---------------------------------------------------------------------------------------------
  // Heads that collection takes
  // ---------------------------------------------------------------------------------------------

  const A: Cid := Name(162)
  const B: Cid := Name(163)
  const C: Cid := Name(164)
  const T: Cid := Name(19)

  /** A commit more without parents, told apart by the length of its message. */
  lemma Another(d: Disk, tree: Cid, n: nat) returns (d': Disk)
    requires StoreOk(TOY, d) && n < 24 && Name(162 + n) !in d.commits
    ensures StoreOk(TOY, d') && d' == d.(commits := d'.commits, head := Some(Name(162 + n)))
              && d'.commits.Keys == d.commits.Keys + {Name(162 + n)}
    ensures Orphan(d', Name(162 + n), tree)
    ensures forall c, t :: c in d.commits && Orphan(d, c, t) ==> Orphan(d', c, t)
    ensures forall t :: t in d.trees ==> LoadTree(TOY, d', t) == LoadTree(TOY, d, t)
  {
    hide CommitOf, TreeOf, StoreOk, Name, Grown, Letters;
    ShortText(n);
    GrownOk(d, tree, [], Letters(n));
    d' := Grown(d, tree, [], Letters(n));
  }

  /** A commit of this tree that loads and has no parents. */
  ghost predicate Orphan(d: Disk, c: Cid, tree: Cid) {
    LoadCommit(TOY, d, c).Ok? && LoadCommit(TOY, d, c).value.tree == tree && LoadCommit(TOY, d, c).value.parents == []
  }

  /** A vault that has no chunks, HEADS or registered snapshots, and the empty tree alone. */
  ghost predicate Bare(d: Disk) {
    && StoreOk(TOY, d) && d.trees == START.trees && d.chunks == map[] && d.heads == {} && d.registry == []
    && LoadTree(TOY, d, T) == Ok(map[])
  }

  lemma StartIsBare()
    ensures Bare(START) && START.commits == map[] && T in START.trees
  {
    hide LoadTree, StoreOk, Name, EmptyWire, TreeWire;
    StartOk();
  }

  lemma OneCommit() returns (d: Disk)
    ensures Bare(d) && d.head == Some(A) && d.commits.Keys == {A} && Orphan(d, A, T)
  {
    hide LoadTree, StoreOk, Name, Orphan;
    StartIsBare();
    d := Another(START, T, 0);
  }

  /** The second commit names any tree at all. */
  lemma TwoCommits(tree: Cid) returns (d: Disk)
    ensures Bare(d) && d.head == Some(B) && d.commits.Keys == {A, B} && Orphan(d, A, T) && Orphan(d, B, tree)
  {
    hide LoadTree, StoreOk, Name, Orphan;
    Apart();
    StartIsBare();
    var d1 := OneCommit();
    d := Another(d1, tree, 1);
  }

  /** Three commits of the empty tree. */
  lemma ThreeCommits() returns (d: Disk)
    ensures Bare(d) && d.commits.Keys == {A, B, C} && Orphan(d, A, T) && Orphan(d, B, T) && Orphan(d, C, T)
  {
    hide LoadTree, StoreOk, Name, Orphan;
    Apart();
    StartIsBare();
    var d2 := TwoCommits(T);
    d := Another(d2, T, 2);
  }

  lemma Apart()
    ensures A != B && A != C && B != C && T != A && T != B && T != C && Name(230) !in {A, B, C, T}
  {
    hide Name;
    forall a, b | a in {19, 162, 163, 164, 230} && b in {19, 162, 163, 164, 230} && a != b ensures Name(a) != Name(b) {
      if Name(a) == Name(b) { NamesDiffer(a, b); }
    }
  }

  /** Commits without parents are live only if they are roots, and name no tree but their own. */
  lemma OnlyRootsLive(d: Disk, roots: set<Cid>)
    requires forall c :: c in d.commits ==> LoadCommit(TOY, d, c).Ok? && LoadCommit(TOY, d, c).value.parents == []
    ensures LiveCommits(TOY, d, roots) <= roots
    ensures forall t :: t in LiveTrees(TOY, d, roots) ==>
              exists c :: c in roots && c in d.commits && t == LoadCommit(TOY, d, c).value.tree
  {
    hide LoadCommit, Closure;
    assert ClosedUnder(GraphOf(TOY, d), roots, roots);
    ClosureIsLeast(GraphOf(TOY, d), roots, roots);
    ClosureIsHere(GraphOf(TOY, d), roots);
  }

  lemma ClosureIsHere(g: Graph, roots: set<Cid>)
    ensures Closure(g, roots) <= g.Keys
  {
  }

  /** Adopting a head loses the old one: B becomes HEAD, and A is collected. */
  lemma OldHeadIsLost() returns (d: Disk, c: Cid)
    ensures StoreOk(TOY, d) && d.head.Some? && d.head.value in d.commits && LoadCommit(TOY, d, c).Ok?
    ensures d.head.value !in Collected(TOY, Adopted(d, c)).commits
  {
    hide LoadCommit, LoadTree, StoreOk, Name, Collected, LiveCommits, LiveTrees;
    Apart();
    var all := ThreeCommits();
    d, c := all.(head := Some(A), heads := {}), B;
    OtherHeads(all, d);
    var roots := {B} + d.heads + (set h | h in d.registry);
    assert roots == {B};
    OnlyRootsLive(d, roots);
    OldHeadAfterAdopting(TOY, d, B, A);
  }

  lemma OtherHeads(d: Disk, d': Disk)
    requires d' == d.(head := d'.head, heads := d'.heads)
    ensures StoreOk(TOY, d) ==> StoreOk(TOY, d')
    ensures forall h :: LoadCommit(TOY, d', h) == LoadCommit(TOY, d, h) && LoadTree(TOY, d', h) == LoadTree(TOY, d, h)
  {
    hide CommitOf, TreeOf, GoodObject;
  }

  /** Merging loses a third head: HEAD is A, HEADS holds C, and B is merged. */
  lemma ThirdHeadIsLost() returns (d: Disk, remote: Cid, third: Cid)
    ensures StoreOk(TOY, d) && third in d.heads && third in d.commits && TextFits([])
    ensures MergeSucceeds(TOY, d, remote, []) && MergesCleanly(TOY, d, remote, [], [], 0)
    ensures third !in Collected(TOY, MergedDisk(TOY, d, remote, [], [], 0)).commits
  {
    hide LoadCommit, LoadTree, StoreOk, Name, Collected, MergedDisk, MergesCleanly, MergeSucceeds, MergeTree;
    var all := ThreeCommits();
    d, remote, third := all.(head := Some(A), heads := {C}), B, C;
    OtherHeads(all, d);
    EmptyMerge(d);
    ThirdIsLost(d);
  }

  lemma ThirdIsLost(d: Disk)
    requires StoreOk(TOY, d) && d.head == Some(A) && d.registry == [] && d.commits.Keys == {A, B, C}
    requires forall c :: c in {A, B, C} ==>
               LoadCommit(TOY, d, c).Ok? && LoadCommit(TOY, d, c).value.tree == T
                   && LoadCommit(TOY, d, c).value.parents == []
    requires TextFits([]) && MergeSucceeds(TOY, d, B, []) && MergesCleanly(TOY, d, B, [], [], 0)
    requires MergeTree(TOY, d, B, []) == T && MergedDisk(TOY, d, B, [], [], 0).head == Some(Name(230))
    ensures C !in Collected(TOY, MergedDisk(TOY, d, B, [], [], 0)).commits
  {
    hide LoadCommit, LoadTree, StoreOk, Name, Collected, LiveCommits, LiveTrees, MergedDisk, MergesCleanly,
      MergeSucceeds, MergeTree, Trusted, TextFits, MergeRoots;
    Apart();
    ToyIsTrusted();
    TwoRoots(d);
    OnlyRootsLive(d, {A, B});
    HeadsAfterMerging(TOY, d, B, [], [], 0, C);
  }

  lemma TwoRoots(d: Disk)
    requires d.head == Some(A) && d.registry == []
    ensures MergeRoots(d, B) == {A, B}
  {
    hide Name;
    Apart();
    assert MergeParents(d, B) == [A, B];
  }

  /** The merge of two empty trees. */
  lemma EmptyMerge(d: Disk)
    requires StoreOk(TOY, d) && d.head == Some(A) && d.commits.Keys == {A, B, C} && d.trees == START.trees
    requires LoadTree(TOY, d, T) == Ok(map[])
    requires forall c :: c in {A, B, C} ==> LoadCommit(TOY, d, c).Ok? && LoadCommit(TOY, d, c).value.tree == T
    ensures TextFits([]) && MergeSucceeds(TOY, d, B, []) && MergesCleanly(TOY, d, B, [], [], 0)
    ensures MergeTree(TOY, d, B, []) == T && MergedDisk(TOY, d, B, [], [], 0).head == Some(Name(230))
  {
    hide LoadCommit, LoadTree, StoreOk, Name, SanitizeLabel, CopyName, TreeWire, CommitWire, MakeCommit;
    Apart();
    EmptyTreeLength();
    NothingToMerge(CopyName(SanitizeLabel([])));
    assert MergeOf(TOY, d, B, []).tree == map[];
    ShortText(0);
    assert Letters(0) == [];
    CommitLength(T, [A, B], []);
    assert MergeParents(d, B) == [A, B];
    assert MergeCommit(TOY, d, B, [], [], 0) == ToyCommit(T, [A, B], []);
  }

  lemma NothingToMerge(name: Path -> Path)
    ensures MergeConflicts(map[], map[], name) == Trees.Merge(map[], {}, {})
  {
    var none: TreeMap := map[];
    assert none.Keys == {};
  }

  // ---------------------------------------------------------------------------------------------
  // A commit named as a tree
  // ---------------------------------------------------------------------------------------------

  /** Collection keeps a commit that nothing leads to, because another names it as its tree. */
  lemma NamedAsTreeStays() returns (d: Disk, c: Cid)
    ensures StoreOk(TOY, d) && c in d.commits
    ensures c !in LiveCommits(TOY, d, Roots(d)) && c in Collected(TOY, d).commits
    ensures Collected(TOY, d).commits.Keys != LiveCommits(TOY, d, Roots(d))
  {
    hide LoadCommit, StoreOk, Name, Collected, LiveCommits, LiveTrees, Roots;
    d := TwoCommits(A);
    c := A;
    ANamedStays(d);
  }

  lemma ANamedStays(d: Disk)
    requires d.head == Some(B) && d.heads == {} && d.registry == [] && d.commits.Keys == {A, B}
    requires LoadCommit(TOY, d, A).Ok? && LoadCommit(TOY, d, A).value.parents == []
    requires LoadCommit(TOY, d, B).Ok? && LoadCommit(TOY, d, B).value.parents == []
              && LoadCommit(TOY, d, B).value.tree == A
    ensures A !in LiveCommits(TOY, d, Roots(d)) && A in Collected(TOY, d).commits
  {
    hide LoadCommit, Name, Collected, LiveCommits, LiveTrees;
    Apart();
    OnlyRootsLive(d, Roots(d));
    assert Roots(d) == {B};
    NamedIsLive(d, B, A);
    CollectedLeaves(TOY, d, A);
  }

  lemma NamedIsLive(d: Disk, c: Cid, t: Cid)
    requires c in d.commits && c in Roots(d) && LoadCommit(TOY, d, c).Ok? && LoadCommit(TOY, d, c).value.tree == t
    ensures t in LiveTrees(TOY, d, Roots(d))
  {
    hide LoadCommit, Closure, Roots;
    RootReachable(GraphOf(TOY, d), Roots(d), c);
    assert t in TreeName(TOY, d, c);
  }
}
