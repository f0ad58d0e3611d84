/** Tree manifests of src/tree.rs: sorted maps from paths to entries, adds, merges and conflict merges. */
module Trees {
  import opened Bytes
  import opened Paths
  import opened PathRules

  datatype Entry = File(size: u64, chunks: seq<Cid>) | Dir(hash: Cid)

  type TreeMap = map<Path, Entry>

  /** Every key is one the wire can carry. */
  predicate WireTree(t: TreeMap) { forall k :: k in t ==> WirePath(k) }

  // ---------------------------------------------------------------------------------------------
  // The iteration order of a BTreeMap
  // ---------------------------------------------------------------------------------------------

  predicate StrictlySorted(ks: seq<Path>) {
    forall i, j :: 0 <= i < j < |ks| ==> Less(ks[i], ks[j])
  }

  /** `ks` lists the keys in `s` once each, in byte order. */
  predicate KeyOrder(ks: seq<Path>, s: set<Path>) {
    && StrictlySorted(ks)
    && (forall k :: k in s ==> k in ks)
    && (forall i :: 0 <= i < |ks| ==> ks[i] in s)
  }

  predicate IsLeast(m: Path, s: set<Path>) {
    m in s && forall k :: k in s ==> k == m || Less(m, k)
  }

  lemma {:induction false} LeastExists(s: set<Path>) returns (m: Path)
    requires s != {}
    ensures IsLeast(m, s)
    decreases |s|
  {
    var x :| x in s;
    if s == {x} {
      return x;
    }
    var y := LeastExists(s - {x});
    LessTotal(x, y);
    if Less(x, y) {
      forall k | k in s ensures k == x || Less(x, k) {
        if k != x && k != y { LessTransitive(x, y, k); }
      }
      return x;
    }
    return y;
  }

  lemma KeyOrderStep(m: Path, s: set<Path>, ks: seq<Path>)
    requires IsLeast(m, s) && KeyOrder(ks, s - {m})
    ensures KeyOrder([m] + ks, s)
  {
    var all := [m] + ks;
    assert forall k :: k in s ==> k == all[0] || k in ks;
    assert forall i :: 0 <= i < |ks| ==> all[i + 1] == ks[i] && ks[i] in s && ks[i] != m;
  }

  /** The keys of a map in the order its iterator gives them. */
  function SortedKeys(s: set<Path>): (ks: seq<Path>)
    decreases |s|
  {
    if s == {} then []
    else
      assert exists m :: m in s && IsLeast(m, s) by { var m := LeastExists(s); }
      assert forall x, y :: x in s && IsLeast(x, s) && y in s && IsLeast(y, s) ==> x == y by {
        forall x, y | x in s && IsLeast(x, s) && y in s && IsLeast(y, s) ensures x == y { LeastUnique(x, y, s); }
      }
      var m :| m in s && IsLeast(m, s);
      [m] + SortedKeys(s - {m})
  }

  lemma {:induction false} SortedKeysInOrder(s: set<Path>)
    ensures KeyOrder(SortedKeys(s), s)
    decreases |s|
  {
    if s != {} {
      var m := SortedKeys(s)[0];
      assert IsLeast(m, s) by { var x := LeastExists(s); }
      SortedKeysInOrder(s - {m});
      KeyOrderStep(m, s, SortedKeys(s - {m}));
    }
  }

  lemma HeadIn(ks: seq<Path>, s: set<Path>)
    requires KeyOrder(ks, s) && ks != []
    ensures ks[0] in s
  {
  }

  /** There is only one such order. */
  lemma {:induction false} KeyOrderUnique(a: seq<Path>, b: seq<Path>, s: set<Path>)
    requires KeyOrder(a, s) && KeyOrder(b, s)
    ensures a == b
    decreases |a|
  {
    if a == [] {
      if b != [] { HeadIn(b, s); }
    } else {
      assert a[0] in s;
      FirstIsLeast(a, s);
      FirstIsLeast(b, s);
      LeastUnique(a[0], b[0], s);
      KeyOrderTail(a, s);
      KeyOrderTail(b, s);
      KeyOrderUnique(a[1..], b[1..], s - {a[0]});
      assert a == [a[0]] + a[1..] && b == [b[0]] + b[1..];
    }
  }

  lemma FirstIsLeast(a: seq<Path>, s: set<Path>)
    requires KeyOrder(a, s) && s != {}
    ensures a != [] && IsLeast(a[0], s)
  {
    var x :| x in s;
    assert x in a;
    forall k | k in s ensures k == a[0] || Less(a[0], k) {
      var i :| 0 <= i < |a| && a[i] == k;
      if i > 0 { assert Less(a[0], a[i]); }
    }
  }

  lemma LeastUnique(x: Path, y: Path, s: set<Path>)
    requires IsLeast(x, s) && IsLeast(y, s)
    ensures x == y
  {
    if x != y {
      LessTransitive(x, y, x);
      LessIrreflexive(x);
    }
  }

  lemma KeyOrderTail(a: seq<Path>, s: set<Path>)
    requires KeyOrder(a, s) && a != []
    ensures KeyOrder(a[1..], s - {a[0]})
  {
    forall i | 0 <= i < |a[1..]| ensures a[1..][i] in s - {a[0]} {
      assert Less(a[0], a[i + 1]);
      LessIrreflexive(a[0]);
    }
    assert forall k :: k in s && k != a[0] ==> k in a[1..];
  }

  /** The keys listed so far and the keys still to come. */
  lemma KeyOrderIndex(ks: seq<Path>, s: set<Path>, i: nat, j: nat)
    requires KeyOrder(ks, s) && i < |ks| && j < |ks| && i != j
    ensures ks[i] != ks[j]
  {
    LessIrreflexive(ks[i]);
    assert i < j ==> Less(ks[i], ks[j]);
    assert j < i ==> Less(ks[j], ks[i]);
  }

  // ---------------------------------------------------------------------------------------------
  // merge_with_conflicts on values
  // ---------------------------------------------------------------------------------------------

  /** The tree after some of `theirs` were merged, the keys seen so far and those copied aside. */
  datatype Merge = Merge(tree: TreeMap, seen: set<Path>, copied: set<Path>)

  /** `ks` lists the keys in `s` once each. */
  ghost predicate Listing(ks: seq<Path>, s: set<Path>) {
    && (forall i, j :: 0 <= i < j < |ks| ==> ks[i] != ks[j])
    && (forall i :: 0 <= i < |ks| ==> ks[i] in s)
    && (forall k :: k in s ==> k in ks)
  }

  lemma OrderIsListing(ks: seq<Path>, s: set<Path>)
    requires KeyOrder(ks, s)
    ensures Listing(ks, s)
  {
    forall i, j | 0 <= i < j < |ks| ensures ks[i] != ks[j] {
      KeyOrderIndex(ks, s, i, j);
    }
  }

  lemma SortedListing(s: set<Path>)
    ensures Listing(SortedKeys(s), s)
  {
    SortedKeysInOrder(s);
    OrderIsListing(SortedKeys(s), s);
  }

  /** How copies are named: distinct paths get distinct names. */
  ghost predicate Injective(name: Path -> Path) {
    forall p, q :: name(p) == name(q) ==> p == q
  }

  ghost predicate KeepsWirePaths(name: Path -> Path) {
    forall p :: WirePath(p) ==> WirePath(name(p))
  }

  /** The names `conflict_path_name` gives under one label. */
  function CopyName(tag: bytes): Path -> Path {
    p => ConflictName(p, tag)
  }

  /** What every theorem below needs of the names holds of the real ones. */
  lemma CopyNameFits(tag: bytes)
    requires CleanLabel(tag)
    ensures Injective(CopyName(tag)) && KeepsWirePaths(CopyName(tag))
  {
    forall p, q | CopyName(tag)(p) == CopyName(tag)(q) ensures p == q {
      ConflictNameInjective(p, q, tag);
    }
    forall p | WirePath(p) ensures WirePath(CopyName(tag)(p)) {
      ConflictNameIsWirePath(p, tag);
    }
  }

  function MergeStep(m: Merge, k: Path, e: Entry, name: Path -> Path): Merge {
    if k !in m.tree then Merge(m.tree[k := e], m.seen + {k}, m.copied)
    else if m.tree[k] == e then Merge(m.tree, m.seen + {k}, m.copied)
    else Merge(m.tree[name(k) := e], m.seen + {k}, m.copied + {k})
  }

  function MergePrefix(ours: TreeMap, theirs: TreeMap, ks: seq<Path>, n: nat, name: Path -> Path): Merge
    requires n <= |ks| && forall i :: 0 <= i < |ks| ==> ks[i] in theirs
  {
    if n == 0 then Merge(ours, {}, {})
    else MergeStep(MergePrefix(ours, theirs, ks, n - 1, name), ks[n - 1], theirs[ks[n - 1]], name)
  }

  function MergeConflicts(ours: TreeMap, theirs: TreeMap, name: Path -> Path): Merge {
    var ks := SortedKeys(theirs.Keys);
    SortedListing(theirs.Keys);
    MergePrefix(ours, theirs, ks, |ks|, name)
  }

  ghost predicate Divergent(ours: TreeMap, theirs: TreeMap, k: Path) {
    k in ours && k in theirs && ours[k] != theirs[k]
  }

  /** No divergent path's conflict name is a key of either tree. */
  ghost predicate NoClash(ours: TreeMap, theirs: TreeMap, name: Path -> Path) {
    forall k :: k in theirs && Divergent(ours, theirs, k) ==>
      name(k) !in ours && name(k) !in theirs
  }

  function Names(copied: set<Path>, name: Path -> Path): set<Path> {
    set k | k in copied :: name(k)
  }

  lemma {:induction false} NamesCount(copied: set<Path>, name: Path -> Path)
    requires Injective(name)
    ensures |Names(copied, name)| == |copied|
    decreases |copied|
  {
    if copied != {} {
      var x :| x in copied;
      NamesCount(copied - {x}, name);
      assert Names(copied, name) == Names(copied - {x}, name) + {name(x)};
    }
  }

  lemma NamesAdd(copied: set<Path>, k: Path, name: Path -> Path)
    ensures Names(copied + {k}, name) == Names(copied, name) + {name(k)}
  {
    assert forall q :: q in copied ==> name(q) in Names(copied + {k}, name);
    assert k in copied + {k};
  }

  /** After `n` keys the merge has seen exactly those. */
  lemma {:induction false} MergeSeen(ours: TreeMap, theirs: TreeMap, ks: seq<Path>, n: nat, name: Path -> Path)
    requires Listing(ks, theirs.Keys) && n <= |ks|
    ensures forall k :: k in MergePrefix(ours, theirs, ks, n, name).seen <==> exists i :: 0 <= i < n && ks[i] == k
    decreases n
  {
    if n > 0 {
      MergeSeen(ours, theirs, ks, n - 1, name);
    }
  }

  lemma SeenAll(ours: TreeMap, theirs: TreeMap, ks: seq<Path>, name: Path -> Path)
    requires Listing(ks, theirs.Keys)
    ensures MergePrefix(ours, theirs, ks, |ks|, name).seen == theirs.Keys
  {
    MergeSeen(ours, theirs, ks, |ks|, name);
  }

  lemma NextIsFresh(ours: TreeMap, theirs: TreeMap, ks: seq<Path>, n: nat, name: Path -> Path)
    requires Listing(ks, theirs.Keys) && n < |ks|
    ensures ks[n] in theirs && ks[n] !in MergePrefix(ours, theirs, ks, n, name).seen
  {
    MergeSeen(ours, theirs, ks, n, name);
  }

  ghost predicate KeysAre(m: Merge, ours: TreeMap, name: Path -> Path) {
    && (forall k :: k in m.tree <==> k in ours || k in m.seen || k in Names(m.copied, name))
    && (forall k :: k in m.copied ==> k in m.seen)
  }

  lemma KeysStep(m: Merge, ours: TreeMap, k: Path, e: Entry, name: Path -> Path)
    requires KeysAre(m, ours, name)
    ensures KeysAre(MergeStep(m, k, e, name), ours, name)
  {
    NamesAdd(m.copied, k, name);
  }

  /** Which keys a merge produces, whatever the trees: those of both trees and the copies' names. */
  lemma {:induction false} MergeKeys(ours: TreeMap, theirs: TreeMap, ks: seq<Path>, n: nat, name: Path -> Path)
    requires n <= |ks| && forall i :: 0 <= i < |ks| ==> ks[i] in theirs
    ensures KeysAre(MergePrefix(ours, theirs, ks, n, name), ours, name)
    decreases n
  {
    if n > 0 {
      MergeKeys(ours, theirs, ks, n - 1, name);
      KeysStep(MergePrefix(ours, theirs, ks, n - 1, name), ours, ks[n - 1], theirs[ks[n - 1]], name);
    }
  }

  /** The copied keys are the divergent ones, and every entry is where it belongs. */
  ghost predicate Placed(ours: TreeMap, theirs: TreeMap, m: Merge, name: Path -> Path) {
    && (forall k :: k in m.copied ==> k in m.seen && Divergent(ours, theirs, k))
    && (forall k :: k in m.seen && Divergent(ours, theirs, k) ==> k in m.copied)
    && (forall k :: k in ours ==> k in m.tree && m.tree[k] == ours[k])
    && (forall k :: k in m.seen && k !in ours ==> k in theirs && k in m.tree && m.tree[k] == theirs[k])
    && (forall k :: k in m.copied ==> name(k) in m.tree && m.tree[name(k)] == theirs[k])
  }

  /** No copy has landed on a key of either tree. */
  ghost predicate Apart(ours: TreeMap, theirs: TreeMap, m: Merge, name: Path -> Path) {
    forall k :: k in m.copied ==> name(k) !in ours && name(k) !in theirs
  }

  /** A merge that is known to be in no clash, in advance or by its outcome. */
  ghost predicate Safe(ours: TreeMap, theirs: TreeMap, m: Merge, name: Path -> Path) {
    Apart(ours, theirs, m, name) || NoClash(ours, theirs, name)
  }

  ghost predicate InPlace(ours: TreeMap, theirs: TreeMap, m: Merge, name: Path -> Path) {
    KeysAre(m, ours, name) && Apart(ours, theirs, m, name) && Placed(ours, theirs, m, name)
  }

  lemma SafeBefore(ours: TreeMap, theirs: TreeMap, m: Merge, k: Path, e: Entry, name: Path -> Path)
    requires Safe(ours, theirs, MergeStep(m, k, e, name), name)
    ensures Safe(ours, theirs, m, name)
  {
  }

  /** In place, a key that comes next is in the tree only if it is ours. */
  lemma NextIsOurs(ours: TreeMap, theirs: TreeMap, m: Merge, k: Path, name: Path -> Path)
    requires k in theirs && k !in m.seen && InPlace(ours, theirs, m, name)
    ensures k in m.tree <==> k in ours
    ensures k in m.tree ==> m.tree[k] == ours[k]
  {
    assert k !in Names(m.copied, name);
  }

  lemma ApartStep(ours: TreeMap, theirs: TreeMap, m: Merge, k: Path, name: Path -> Path)
    requires k in theirs && k !in m.seen && InPlace(ours, theirs, m, name)
    requires Safe(ours, theirs, MergeStep(m, k, theirs[k], name), name)
    ensures Apart(ours, theirs, MergeStep(m, k, theirs[k], name), name)
  {
    NextIsOurs(ours, theirs, m, k, name);
  }

  lemma PlacedStep(ours: TreeMap, theirs: TreeMap, m: Merge, k: Path, name: Path -> Path)
    requires Injective(name) && k in theirs && k !in m.seen && Placed(ours, theirs, m, name)
    requires (k in m.tree <==> k in ours) && (k in m.tree ==> m.tree[k] == ours[k])
    requires Apart(ours, theirs, m, name) && Apart(ours, theirs, MergeStep(m, k, theirs[k], name), name)
    ensures Placed(ours, theirs, MergeStep(m, k, theirs[k], name), name)
  {
    if Divergent(ours, theirs, k) {
      assert k in MergeStep(m, k, theirs[k], name).copied;
    }
  }

  /** One step keeps every entry in place as long as no copy lands on a key of either tree. */
  lemma InPlaceStep(ours: TreeMap, theirs: TreeMap, m: Merge, k: Path, name: Path -> Path)
    requires Injective(name) && k in theirs && k !in m.seen
    requires InPlace(ours, theirs, m, name)
    requires Safe(ours, theirs, MergeStep(m, k, theirs[k], name), name)
    ensures InPlace(ours, theirs, MergeStep(m, k, theirs[k], name), name)
  {
    KeysStep(m, ours, k, theirs[k], name);
    ApartStep(ours, theirs, m, k, name);
    NextIsOurs(ours, theirs, m, k, name);
    PlacedStep(ours, theirs, m, k, name);
  }

  lemma OursInPlace(ours: TreeMap, theirs: TreeMap, name: Path -> Path)
    ensures InPlace(ours, theirs, Merge(ours, {}, {}), name)
  {
  }

  /** While no copy has landed on a key of either tree, everything is in place. */
  lemma {:induction false} MergePlaced(ours: TreeMap, theirs: TreeMap, ks: seq<Path>, n: nat, name: Path -> Path)
    requires Listing(ks, theirs.Keys) && n <= |ks| && Injective(name)
    requires Safe(ours, theirs, MergePrefix(ours, theirs, ks, n, name), name)
    ensures InPlace(ours, theirs, MergePrefix(ours, theirs, ks, n, name), name)
    decreases n
  {
    hide InPlace, Safe, MergeStep, Injective;
    if n == 0 {
      OursInPlace(ours, theirs, name);
    } else {
      var before := MergePrefix(ours, theirs, ks, n - 1, name);
      SafeBefore(ours, theirs, before, ks[n - 1], theirs[ks[n - 1]], name);
      MergePlaced(ours, theirs, ks, n - 1, name);
      NextIsFresh(ours, theirs, ks, n - 1, name);
      InPlaceStep(ours, theirs, before, ks[n - 1], name);
    }
  }

  /** The count of copies is exact, that is, every copy is a new key, exactly when no divergent
      path's conflict name is a key of either tree. */
  lemma MergeSizeExact(ours: TreeMap, theirs: TreeMap, name: Path -> Path)
    requires Injective(name)
    ensures var m := MergeConflicts(ours, theirs, name);
            |m.tree| == |ours.Keys + theirs.Keys| + |m.copied| <==> NoClash(ours, theirs, name)
  {
    var ks := SortedKeys(theirs.Keys);
    SortedListing(theirs.Keys);
    SeenAll(ours, theirs, ks, name);
    MergeKeys(ours, theirs, ks, |ks|, name);
    var m := MergeConflicts(ours, theirs, name);
    KeysCount(m, ours, theirs, name);
    if Safe(ours, theirs, m, name) {
      MergePlaced(ours, theirs, ks, |ks|, name);
      PlacedApart(ours, theirs, m, name);
    }
  }

  lemma PlacedApart(ours: TreeMap, theirs: TreeMap, m: Merge, name: Path -> Path)
    requires Placed(ours, theirs, m, name) && m.seen == theirs.Keys
    ensures Apart(ours, theirs, m, name) <==> NoClash(ours, theirs, name)
  {
  }

  /** The size of a merge is exact when no copy has landed on a key of either tree. */
  lemma KeysCount(m: Merge, ours: TreeMap, theirs: TreeMap, name: Path -> Path)
    requires Injective(name) && m.seen == theirs.Keys && KeysAre(m, ours, name)
    ensures |m.tree| == |ours.Keys + theirs.Keys| + |m.copied| <==> Apart(ours, theirs, m, name)
  {
    var both, names := ours.Keys + theirs.Keys, Names(m.copied, name);
    NamesCount(m.copied, name);
    UnionCount(both, names);
    NamesApart(ours, theirs, m, name);
    MapSize(m.tree, both + names);
  }

  lemma MapSize<K, V>(m: map<K, V>, s: set<K>)
    requires forall k :: k in m <==> k in s
    ensures |m| == |s|
  {
    assert m.Keys == s;
  }

  lemma NamesApart(ours: TreeMap, theirs: TreeMap, m: Merge, name: Path -> Path)
    ensures Names(m.copied, name) !! ours.Keys + theirs.Keys <==> Apart(ours, theirs, m, name)
  {
    assert forall k :: k in m.copied ==> name(k) in Names(m.copied, name);
  }

  lemma UnionCount<T>(a: set<T>, b: set<T>)
    ensures |a + b| == |a| + |b| <==> b !! a
  {
    assert a + b == a + (b - a) && |a + (b - a)| == |a| + |b - a|;
    assert b == (b - a) + (b * a) && |b| == |b - a| + |b * a|;
  }

  /** Nothing is lost: where no path with two different entries has a conflict name that is a key of either tree, ours
      stays, theirs is found at its path or, if ours differs there, at its conflict name, and nothing else appears; the
      count is that of the paths with two different entries. */
  lemma MergeLosesNothing(ours: TreeMap, theirs: TreeMap, name: Path -> Path)
    requires forall p, q :: name(p) == name(q) ==> p == q
    requires forall k :: k in ours && k in theirs && ours[k] != theirs[k] ==> name(k) !in ours && name(k) !in theirs
    ensures var t := MergeConflicts(ours, theirs, name).tree;
            && (forall k :: k in ours ==> k in t && t[k] == ours[k])
            && (forall k :: k in theirs && (k !in ours || ours[k] == theirs[k]) ==> k in t && t[k] == theirs[k])
            && (forall k :: k in ours && k in theirs && ours[k] != theirs[k] ==>
                  name(k) in t && t[name(k)] == theirs[k])
            && (forall q :: q in t ==>
                  || q in ours || q in theirs
                  || exists k :: k in ours && k in theirs && ours[k] != theirs[k] && q == name(k))
    ensures MergeConflicts(ours, theirs, name).copied == set k | k in ours && k in theirs && ours[k] != theirs[k]
  {
    var ks := SortedKeys(theirs.Keys);
    SortedListing(theirs.Keys);
    SeenAll(ours, theirs, ks, name);
    MergePlaced(ours, theirs, ks, |ks|, name);
    MergeKeys(ours, theirs, ks, |ks|, name);
    PlainlyPlaced(ours, theirs, MergeConflicts(ours, theirs, name), name);
  }

  lemma PlainlyPlaced(ours: TreeMap, theirs: TreeMap, m: Merge, name: Path -> Path)
    requires Placed(ours, theirs, m, name) && m.seen == theirs.Keys
    ensures m.copied == set k | k in ours && k in theirs && ours[k] != theirs[k]
  {
  }

  /** Two merges that meet the same path under labels that stay distinct leave ours and both copies. */
  lemma TwoMerges(ours: Entry, first: Entry, second: Entry, k: Path, a: bytes, b: bytes)
    requires ours != first && ours != second && SanitizeLabel(a) != SanitizeLabel(b)
    ensures var x, y := ConflictName(k, SanitizeLabel(a)), ConflictName(k, SanitizeLabel(b));
            var t := MergeConflicts(map[k := ours], map[k := first], CopyName(SanitizeLabel(a))).tree;
            && k != x && k != y && x != y
            && MergeConflicts(t, map[k := second], CopyName(SanitizeLabel(b))).tree
               == map[k := ours, x := first, y := second]
  {
    hide SanitizeLabel, ConflictName, MergeConflicts;
    var x, y := ConflictName(k, SanitizeLabel(a)), ConflictName(k, SanitizeLabel(b));
    var t := MergeConflicts(map[k := ours], map[k := first], CopyName(SanitizeLabel(a))).tree;
    NameGrows(k, SanitizeLabel(a));
    NameGrows(k, SanitizeLabel(b));
    DistinctLabels(k, k, a, b);
    OneCopy(map[k := ours], k, ours, first, CopyName(SanitizeLabel(a)));
    assert t == map[k := ours, x := first];
    OneCopy(t, k, ours, second, CopyName(SanitizeLabel(b)));
  }

  /** So do two merges of whole trees, if neither meets a clash: every path on which both differ from ours keeps ours
      and has each of theirs under its own name. */
  lemma BothCopiesStay(ours: TreeMap, first: TreeMap, second: TreeMap, a: bytes, b: bytes)
    requires SanitizeLabel(a) != SanitizeLabel(b) && NoClash(ours, first, CopyName(SanitizeLabel(a)))
    requires NoClash(MergeConflicts(ours, first, CopyName(SanitizeLabel(a))).tree, second, CopyName(SanitizeLabel(b)))
    ensures var t := MergeConflicts(MergeConflicts(ours, first, CopyName(SanitizeLabel(a))).tree, second,
                       CopyName(SanitizeLabel(b))).tree;
            forall k :: k in ours && k in first && k in second && ours[k] != first[k] && ours[k] != second[k] ==>
              var x, y := ConflictName(k, SanitizeLabel(a)), ConflictName(k, SanitizeLabel(b));
              x != y && k in t && t[k] == ours[k] && x in t && t[x] == first[k] && y in t && t[y] == second[k]
  {
    hide SanitizeLabel, ConflictName, MergeConflicts;
    var name, name' := CopyName(SanitizeLabel(a)), CopyName(SanitizeLabel(b));
    CopyNameFits(SanitizeLabel(a));
    CopyNameFits(SanitizeLabel(b));
    MergeLosesNothing(ours, first, name);
    MergeLosesNothing(MergeConflicts(ours, first, name).tree, second, name');
    forall k ensures name(k) != name'(k) { DistinctLabels(k, k, a, b); }
  }

  lemma NameGrows(k: Path, tag: bytes)
    requires CleanLabel(tag)
    ensures ConflictName(k, tag) != k
  {
    CutIsCut(k);
    var c := Cut(k);
    assert |ConflictName(k, tag)| == |c.dir| + |c.stem| + |Insert(tag)| + |c.ext|;
  }

  lemma OneCopy(ours: TreeMap, k: Path, mine: Entry, yours: Entry, name: Path -> Path)
    requires k in ours && ours[k] == mine && mine != yours
    ensures MergeConflicts(ours, map[k := yours], name).tree == ours[name(k) := yours]
  {
    var theirs: TreeMap := map[k := yours];
    var ks := SortedKeys(theirs.Keys);
    SortedKeysInOrder(theirs.Keys);
    KeyOrderUnique(ks, [k], theirs.Keys);
    assert MergePrefix(ours, theirs, ks, 0, name) == Merge(ours, {}, {});
  }

  /** Merging the same tree again under the same label changes nothing. */
  lemma MergeAgain(ours: TreeMap, theirs: TreeMap, name: Path -> Path)
    requires Injective(name) && NoClash(ours, theirs, name)
    ensures var t := MergeConflicts(ours, theirs, name).tree;
            MergeConflicts(t, theirs, name).tree == t
  {
    MergeLosesNothing(ours, theirs, name);
    var t, ks := MergeConflicts(ours, theirs, name).tree, SortedKeys(theirs.Keys);
    SortedListing(theirs.Keys);
    MergeNoChange(t, theirs, ks, |ks|, name);
  }

  lemma {:induction false} MergeNoChange(t: TreeMap, theirs: TreeMap, ks: seq<Path>, n: nat, name: Path -> Path)
    requires Listing(ks, theirs.Keys) && n <= |ks|
    requires forall k :: k in theirs ==>
      k in t && (t[k] == theirs[k] || (name(k) in t && t[name(k)] == theirs[k]))
    ensures MergePrefix(t, theirs, ks, n, name).tree == t
    decreases n
  {
    if n > 0 {
      MergeNoChange(t, theirs, ks, n - 1, name);
      assert ks[n - 1] in theirs;
    }
  }

  // ---------------------------------------------------------------------------------------------
  // With clashes
  // ---------------------------------------------------------------------------------------------

  /** Whether key `i` of theirs is copied aside. If a copy of an earlier key has come to stand in its place, exactly
      when the two differ; otherwise exactly when ours does. */
  ghost predicate Copied(ours: TreeMap, theirs: TreeMap, name: Path -> Path, ks: seq<Path>, i: nat)
    requires i < |ks| && forall j :: 0 <= j < |ks| ==> ks[j] in theirs
    decreases i
  {
    if exists j :: 0 <= j < i && name(ks[j]) == ks[i] && Copied(ours, theirs, name, ks, j)
    then
      exists j ::
        0 <= j < i && name(ks[j]) == ks[i] && Copied(ours, theirs, name, ks, j) && theirs[ks[j]] != theirs[ks[i]]
    else Divergent(ours, theirs, ks[i])
  }

  /** Where a copy has landed stands that copy, and elsewhere ours, or theirs where there is none of ours. */
  ghost predicate CopiesStand(ours: TreeMap, theirs: TreeMap, name: Path -> Path, m: Merge) {
    && (forall k :: k in m.copied ==> k in theirs && name(k) in m.tree && m.tree[name(k)] == theirs[k])
    && (forall q :: q in m.tree && (forall k :: k in m.copied ==> name(k) != q) ==>
          if q in ours then m.tree[q] == ours[q] else q in theirs && m.tree[q] == theirs[q])
  }

  lemma CopiesStandStep(ours: TreeMap, theirs: TreeMap, name: Path -> Path, m: Merge, k: Path)
    requires Injective(name) && CopiesStand(ours, theirs, name, m) && KeysAre(m, ours, name) && k in theirs
              && k !in m.seen
    ensures CopiesStand(ours, theirs, name, MergeStep(m, k, theirs[k], name))
  {
    if k !in m.tree {
      assert forall x :: x in m.copied ==> name(x) != k;
    } else if m.tree[k] != theirs[k] {
      OneMoreCopy(ours, theirs, name, m, k);
    }
  }

  lemma OneMoreCopy(ours: TreeMap, theirs: TreeMap, name: Path -> Path, m: Merge, k: Path)
    requires Injective(name) && CopiesStand(ours, theirs, name, m) && k in theirs
    ensures CopiesStand(ours, theirs, name, Merge(m.tree[name(k) := theirs[k]], m.seen + {k}, m.copied + {k}))
  {
    var t, copied := m.tree[name(k) := theirs[k]], m.copied + {k};
    forall q | q in t && (forall x :: x in copied ==> name(x) != q)
      ensures if q in ours then t[q] == ours[q] else q in theirs && t[q] == theirs[q]
    {
      assert k in copied;
      assert forall x :: x in m.copied ==> x in copied;
    }
  }

  lemma StepCopies(m: Merge, k: Path, e: Entry, name: Path -> Path)
    ensures MergeStep(m, k, e, name).copied == if k in m.tree && m.tree[k] != e then m.copied + {k} else m.copied
  {
  }

  lemma OursStands(ours: TreeMap, theirs: TreeMap, name: Path -> Path)
    ensures CopiesStand(ours, theirs, name, Merge(ours, {}, {}))
  {
  }

  lemma {:induction false} PrefixStands(ours: TreeMap, theirs: TreeMap, ks: seq<Path>, n: nat, name: Path -> Path)
    requires Injective(name) && Listing(ks, theirs.Keys) && n <= |ks|
    ensures CopiesStand(ours, theirs, name, MergePrefix(ours, theirs, ks, n, name))
    decreases n
  {
    hide CopiesStand, KeysAre, MergeStep, Injective;
    if n == 0 {
      OursStands(ours, theirs, name);
    } else {
      PrefixStands(ours, theirs, ks, n - 1, name);
      MergeKeys(ours, theirs, ks, n - 1, name);
      NextIsFresh(ours, theirs, ks, n - 1, name);
      CopiesStandStep(ours, theirs, name, MergePrefix(ours, theirs, ks, n - 1, name), ks[n - 1]);
    }
  }

  ghost predicate Before(ks: seq<Path>, n: nat, k: Path)
    requires n <= |ks|
  {
    exists i :: 0 <= i < n && ks[i] == k
  }

  lemma BeforeNext(ks: seq<Path>, n: nat, k: Path)
    requires n < |ks|
    ensures Before(ks, n + 1, k) <==> Before(ks, n, k) || ks[n] == k
  {
    if ks[n] == k { assert 0 <= n < n + 1; }
  }

  /** The keys among the first `n` that are copied aside. */
  ghost predicate CopiedSoFar(ours: TreeMap, theirs: TreeMap, name: Path -> Path, ks: seq<Path>, n: nat,
                              copied: set<Path>)
    requires n <= |ks| && forall j :: 0 <= j < |ks| ==> ks[j] in theirs
  {
    && (forall i :: 0 <= i < n ==> (ks[i] in copied <==> Copied(ours, theirs, name, ks, i)))
    && (forall k :: k in copied ==> Before(ks, n, k))
  }

  /** At its turn a key is copied aside exactly when `Copied` says so. */
  lemma CopiedStep(ours: TreeMap, theirs: TreeMap, name: Path -> Path, ks: seq<Path>, n: nat, m: Merge)
    requires Listing(ks, theirs.Keys) && n < |ks| && CopiedSoFar(ours, theirs, name, ks, n, m.copied)
    requires CopiesStand(ours, theirs, name, m) && KeysAre(m, ours, name) && ks[n] !in m.seen
    ensures ks[n] in m.tree && m.tree[ks[n]] != theirs[ks[n]] <==> Copied(ours, theirs, name, ks, n)
  {
    hide CopiedSoFar;
    var k := ks[n];
    if x :| x in m.copied && name(x) == k {
      var j := CopiedIndex(ours, theirs, name, ks, n, m.copied, x);
      assert Copied(ours, theirs, name, ks, j);
      forall i | 0 <= i < n && name(ks[i]) == k && Copied(ours, theirs, name, ks, i)
        ensures theirs[ks[i]] == m.tree[k]
      {
        CopiedAtIndex(ours, theirs, name, ks, n, m.copied, i);
      }
    } else {
      forall i | 0 <= i < n && Copied(ours, theirs, name, ks, i) ensures name(ks[i]) != k {
        CopiedAtIndex(ours, theirs, name, ks, n, m.copied, i);
      }
      assert k in m.tree <==> k in ours;
    }
  }

  lemma CopiedIndex(ours: TreeMap, theirs: TreeMap, name: Path -> Path, ks: seq<Path>, n: nat, copied: set<Path>,
                    x: Path)
    returns (j: nat)
    requires n <= |ks| && (forall j :: 0 <= j < |ks| ==> ks[j] in theirs)
    requires CopiedSoFar(ours, theirs, name, ks, n, copied) && x in copied
    ensures j < n && ks[j] == x && Copied(ours, theirs, name, ks, j)
  {
    hide Copied;
    j :| 0 <= j < n && ks[j] == x;
  }

  lemma CopiedAtIndex(ours: TreeMap, theirs: TreeMap, name: Path -> Path, ks: seq<Path>, n: nat, copied: set<Path>,
                      i: nat)
    requires i < n <= |ks| && (forall j :: 0 <= j < |ks| ==> ks[j] in theirs)
    requires CopiedSoFar(ours, theirs, name, ks, n, copied)
    ensures ks[i] in copied <==> Copied(ours, theirs, name, ks, i)
  {
    hide Copied;
  }

  lemma {:induction false} PrefixCopied(ours: TreeMap, theirs: TreeMap, ks: seq<Path>, n: nat, name: Path -> Path)
    requires Injective(name) && Listing(ks, theirs.Keys) && n <= |ks|
    ensures CopiedSoFar(ours, theirs, name, ks, n, MergePrefix(ours, theirs, ks, n, name).copied)
    decreases n
  {
    hide Copied, CopiesStand, KeysAre, CopiedSoFar, Injective, MergeStep;
    if n == 0 {
      NoneCopied(ours, theirs, name, ks);
    } else {
      var m := MergePrefix(ours, theirs, ks, n - 1, name);
      PrefixCopied(ours, theirs, ks, n - 1, name);
      PrefixStands(ours, theirs, ks, n - 1, name);
      MergeKeys(ours, theirs, ks, n - 1, name);
      NextIsFresh(ours, theirs, ks, n - 1, name);
      CopiedStep(ours, theirs, name, ks, n - 1, m);
      StepCopies(m, ks[n - 1], theirs[ks[n - 1]], name);
      assert !Before(ks, n - 1, ks[n - 1]);
      OneMoreCopied(ours, theirs, name, ks, n - 1, m.copied, MergePrefix(ours, theirs, ks, n, name).copied);
    }
  }

  lemma NoneCopied(ours: TreeMap, theirs: TreeMap, name: Path -> Path, ks: seq<Path>)
    requires forall j :: 0 <= j < |ks| ==> ks[j] in theirs
    ensures CopiedSoFar(ours, theirs, name, ks, 0, {})
  {
  }

  lemma OneMoreCopied(ours: TreeMap, theirs: TreeMap, name: Path -> Path, ks: seq<Path>, n: nat, copied: set<Path>,
                      copied': set<Path>)
    requires (forall j :: 0 <= j < |ks| ==> ks[j] in theirs) && n < |ks| && !Before(ks, n, ks[n])
    requires CopiedSoFar(ours, theirs, name, ks, n, copied)
    requires copied' == if Copied(ours, theirs, name, ks, n) then copied + {ks[n]} else copied
    ensures CopiedSoFar(ours, theirs, name, ks, n + 1, copied')
  {
    hide Copied, Before;
    assert ks[n] !in copied;
    forall k ensures Before(ks, n + 1, k) <==> Before(ks, n, k) || ks[n] == k { BeforeNext(ks, n, k); }
    forall i | 0 <= i < n + 1 ensures ks[i] in copied' <==> Copied(ours, theirs, name, ks, i) {
      if i < n { NotYet(ks, n, i); }
    }
  }

  lemma NotYet(ks: seq<Path>, n: nat, i: nat)
    requires i < n < |ks| && !Before(ks, n, ks[n])
    ensures ks[i] != ks[n]
  {
  }

  /** Any merge, with clashes or not: which keys of theirs are copied aside, and what stands where. */
  lemma MergeExactly(ours: TreeMap, theirs: TreeMap, name: Path -> Path)
    requires Injective(name)
    ensures var ks, m := SortedKeys(theirs.Keys), MergeConflicts(ours, theirs, name);
            && Listing(ks, theirs.Keys)
            && CopiedSoFar(ours, theirs, name, ks, |ks|, m.copied)
            && CopiesStand(ours, theirs, name, m) && KeysAre(m, ours, name) && m.seen == theirs.Keys
  {
    hide Copied, CopiesStand, KeysAre, CopiedSoFar;
    var ks := SortedKeys(theirs.Keys);
    SortedListing(theirs.Keys);
    SeenAll(ours, theirs, ks, name);
    MergeKeys(ours, theirs, ks, |ks|, name);
    PrefixStands(ours, theirs, ks, |ks|, name);
    PrefixCopied(ours, theirs, ks, |ks|, name);
  }

  /** An entry of ours is lost exactly when a key of theirs whose conflict name it bears is copied aside and differs. */
  lemma OursLostExactly(ours: TreeMap, theirs: TreeMap, name: Path -> Path, q: Path)
    requires Injective(name) && q in ours
    ensures Listing(SortedKeys(theirs.Keys), theirs.Keys) && q in MergeConflicts(ours, theirs, name).tree
    ensures MergeConflicts(ours, theirs, name).tree[q] != ours[q] <==>
              var ks := SortedKeys(theirs.Keys);
              exists i :: 0 <= i < |ks| && name(ks[i]) == q && theirs[ks[i]] != ours[q]
                  && Copied(ours, theirs, name, ks, i)
  {
    hide Copied;
    var ks, m := SortedKeys(theirs.Keys), MergeConflicts(ours, theirs, name);
    MergeExactly(ours, theirs, name);
    if k :| k in m.copied && name(k) == q {
      var i :| 0 <= i < |ks| && ks[i] == k;
      assert Copied(ours, theirs, name, ks, i);
      assert m.tree[q] == theirs[ks[i]];
      forall j | 0 <= j < |ks| && name(ks[j]) == q ensures ks[j] == k { }
    }
  }

  /** With a clash an entry of ours is lost: the copy overwrites what stood at the conflict name. */
  lemma ClashOverwrites(k: Path, name: Path -> Path, mine: Entry, bystander: Entry, yours: Entry)
    requires mine != yours && name(k) != k
    ensures MergeConflicts(map[k := mine, name(k) := bystander], map[k := yours], name).tree
              == map[k := mine, name(k) := yours]
  {
    var ours, theirs := map[k := mine, name(k) := bystander], map[k := yours];
    var ks := SortedKeys(theirs.Keys);
    SortedKeysInOrder(theirs.Keys);
    KeyOrderUnique(ks, [k], theirs.Keys);
    assert MergePrefix(ours, theirs, ks, 0, name) == Merge(ours, {}, {});
  }

  /** A merge of trees the wire can carry is such a tree. */
  lemma MergeKeepsWirePaths(ours: TreeMap, theirs: TreeMap, name: Path -> Path)
    requires KeepsWirePaths(name) && WireTree(ours) && WireTree(theirs)
    ensures WireTree(MergeConflicts(ours, theirs, name).tree)
  {
    var m, ks := MergeConflicts(ours, theirs, name), SortedKeys(theirs.Keys);
    SortedListing(theirs.Keys);
    SeenAll(ours, theirs, ks, name);
    MergeKeys(ours, theirs, ks, |ks|, name);
    forall k | k in m.tree ensures WirePath(k) {
      if k !in ours && k !in theirs {
        var q :| q in m.copied && k == name(q);
        assert q in theirs;
        assert WirePath(q);
      }
    }
  }

  // ---------------------------------------------------------------------------------------------
  // The tree object
  // ---------------------------------------------------------------------------------------------

  /** The chunk hashes of a tree's files. */
  function ChunksOf(t: TreeMap): set<Cid> {
    set k, c | k in t && t[k].File? && c in t[k].chunks :: c
  }

  /** `all_chunk_hashes` */
  method AllChunkHashes(t: TreeMap) returns (out: seq<Cid>)
    ensures forall h :: h in out <==> h in ChunksOf(t)
  {
    hide SortedKeys;
    var ks := SortedKeys(t.Keys);
    SortedListing(t.Keys);
    out := [];
    for i := 0 to |ks|
      invariant forall h :: h in out <==> exists j :: 0 <= j < i && t[ks[j]].File? && h in t[ks[j]].chunks
    {
      assert ks[i] in t.Keys;
      if t[ks[i]].File? { out := out + t[ks[i]].chunks; }
    }
    forall h | h in ChunksOf(t) ensures h in out {
      var k :| k in t && t[k].File? && h in t[k].chunks;
      assert k in ks;
    }
  }

  class Tree {
    var entries: TreeMap

    constructor ()
      ensures entries == map[]
    {
      entries := map[];
    }

    /** `try_add_file` */
    method TryAddFile(path: bytes, size: u64, chunks: seq<Cid>) returns (ok: bool)
      modifies this
      ensures ok == NormalizeAndValidate(path).Some?
      ensures entries == if ok then old(entries)[NormalizeAndValidate(path).value := File(size, chunks)]
                else old(entries)
      ensures ValidUtf8(path) && WireTree(old(entries)) ==> WireTree(entries)
    {
      var p := NormalizeAndValidate(path);
      if p.None? {
        return false;
      }
      entries := entries[p.value := File(size, chunks)];
      if ValidUtf8(path) { NormalizedIsWirePath(path); }
      ok := true;
    }

    /** `merge_with_conflicts` */
    method MergeWithConflicts(theirs: TreeMap, from: bytes) returns (conflicts: nat)
      modifies this
      ensures var m := MergeConflicts(old(entries), theirs, CopyName(SanitizeLabel(from)));
              entries == m.tree && conflicts == |m.copied|
    {
      conflicts := MergeNamed(theirs, CopyName(SanitizeLabel(from)));
    }

    /** The loop of `merge_with_conflicts`, for any naming of the copies. */
    method MergeNamed(theirs: TreeMap, name: Path -> Path) returns (conflicts: nat)
      modifies this
      ensures var m := MergeConflicts(old(entries), theirs, name);
              entries == m.tree && conflicts == |m.copied|
    {
      hide SortedKeys;
      var ks := SortedKeys(theirs.Keys);
      SortedListing(theirs.Keys);
      ghost var ours, m := entries, Merge(entries, {}, {});
      conflicts := 0;
      for i := 0 to |ks|
        invariant m == MergePrefix(ours, theirs, ks, i, name)
        invariant entries == m.tree && conflicts == |m.copied|
      {
        var path := ks[i];
        NextStep(ours, theirs, ks, i, name);
        m := MergeStep(m, path, theirs[path], name);
        if path !in entries {
          entries := entries[path := theirs[path]];
        } else if entries[path] != theirs[path] {
          entries := entries[name(path) := theirs[path]];
          conflicts := conflicts + 1;
        }
      }
    }
  }

  lemma NextStep(ours: TreeMap, theirs: TreeMap, ks: seq<Path>, n: nat, name: Path -> Path)
    requires Listing(ks, theirs.Keys) && n < |ks|
    ensures var m := MergePrefix(ours, theirs, ks, n, name);
            && ks[n] !in m.copied
            && MergePrefix(ours, theirs, ks, n + 1, name) == MergeStep(m, ks[n], theirs[ks[n]], name)
  {
    MergeKeys(ours, theirs, ks, n, name);
    NextIsFresh(ours, theirs, ks, n, name);
  }
}
