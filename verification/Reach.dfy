/** Reachability in any finite commit graph, cyclic or with missing parents, and the invariant of a mark loop. */
module Reach {
  import opened Bytes

  /** For each commit on disk its parents; parents need not be on disk. */
  type Graph = map<Cid, seq<Cid>>

  /** A walk along parents through commits on disk, starting at a root. */
  ghost predicate Walk(g: Graph, roots: set<Cid>, p: seq<Cid>) {
    && p != [] && p[0] in roots
    && (forall i :: 0 <= i < |p| ==> p[i] in g)
    && (forall i :: 0 < i < |p| ==> p[i] in g[p[i - 1]])
  }

  ghost predicate Reachable(g: Graph, roots: set<Cid>, c: Cid) {
    exists p :: Walk(g, roots, p) && p[|p| - 1] == c
  }

  ghost function Closure(g: Graph, roots: set<Cid>): set<Cid> {
    set c | c in g && Reachable(g, roots, c)
  }

  lemma RootReachable(g: Graph, roots: set<Cid>, c: Cid)
    requires c in roots && c in g
    ensures c in Closure(g, roots)
  {
    assert Walk(g, roots, [c]) && [c][0] == c;
  }

  lemma ParentReachable(g: Graph, roots: set<Cid>, c: Cid, q: Cid)
    requires c in Closure(g, roots) && q in g[c] && q in g
    ensures q in Closure(g, roots)
  {
    var p :| Walk(g, roots, p) && p[|p| - 1] == c;
    var p' := p + [q];
    assert Walk(g, roots, p') && p'[|p'| - 1] == q;
  }

  /** A set that has the roots and, with a commit, its parents. */
  ghost predicate ClosedUnder(g: Graph, roots: set<Cid>, s: set<Cid>) {
    && (forall c :: c in roots && c in g ==> c in s)
    && (forall c, q :: c in s && c in g && q in g[c] && q in g ==> q in s)
  }

  /** The closure is the least such set. */
  lemma ClosureIsLeast(g: Graph, roots: set<Cid>, s: set<Cid>)
    requires ClosedUnder(g, roots, s)
    ensures Closure(g, roots) <= s
  {
    forall c | c in Closure(g, roots) ensures c in s {
      var p :| Walk(g, roots, p) && p[|p| - 1] == c;
      WalkStaysIn(g, roots, s, p);
    }
  }

  lemma {:induction false} WalkStaysIn(g: Graph, roots: set<Cid>, s: set<Cid>, p: seq<Cid>)
    requires ClosedUnder(g, roots, s) && Walk(g, roots, p)
    ensures p[|p| - 1] in s
    decreases |p|
  {
    if |p| > 1 {
      var front := p[..|p| - 1];
      assert forall i :: 0 <= i < |front| ==> front[i] == p[i];
      WalkStaysIn(g, roots, s, front);
      assert p[|p| - 1] in g[p[|p| - 2]];
    }
  }

  /** The closure is closed itself. */
  lemma ClosureIsClosed(g: Graph, roots: set<Cid>)
    ensures ClosedUnder(g, roots, Closure(g, roots))
  {
    forall c | c in roots && c in g ensures c in Closure(g, roots) {
      RootReachable(g, roots, c);
    }
    forall c, q | c in Closure(g, roots) && c in g && q in g[c] && q in g ensures q in Closure(g, roots) {
      ParentReachable(g, roots, c, q);
    }
  }

  /** A graph that agrees on the closure has the same closure, whatever else it keeps or drops. */
  lemma SameClosure(g: Graph, g': Graph, roots: set<Cid>)
    requires forall c :: c in Closure(g, roots) ==> c in g' && g'[c] == g[c]
    requires forall c :: c in g' ==> c in g
    ensures Closure(g', roots) == Closure(g, roots)
  {
    ClosureIsClosed(g, roots);
    ClosureIsClosed(g', roots);
    var s := Closure(g', roots);
    assert ClosedUnder(g', roots, Closure(g, roots));
    ClosureIsLeast(g', roots, Closure(g, roots));
    assert ClosedUnder(g, roots, s) by {
      forall c, q | c in s && c in g && q in g[c] && q in g ensures q in s {
        assert c in Closure(g, roots);
        assert q in Closure(g, roots);
      }
    }
    ClosureIsLeast(g, roots, s);
  }

  /** More roots, more reachable commits. */
  lemma MoreRoots(g: Graph, roots: set<Cid>, more: set<Cid>)
    requires roots <= more
    ensures Closure(g, roots) <= Closure(g, more)
  {
    forall c | c in Closure(g, roots) ensures c in Closure(g, more) {
      var p :| Walk(g, roots, p) && p[|p| - 1] == c;
      assert Walk(g, more, p);
    }
  }

  /** More commits, more reachable ones. */
  lemma ClosureGrows(g: Graph, g': Graph, roots: set<Cid>)
    requires forall c :: c in g ==> c in g' && g'[c] == g[c]
    ensures Closure(g, roots) <= Closure(g', roots)
  {
    forall c | c in Closure(g, roots) ensures c in Closure(g', roots) {
      var p :| Walk(g, roots, p) && p[|p| - 1] == c;
      assert Walk(g', roots, p);
    }
  }

  /** A root that is put on top of the graph reaches itself and what its parents reach. */
  lemma ClosureOfTop(g: Graph, top: Cid, parents: seq<Cid>, rest: set<Cid>)
    requires top in g ==> g[top] == parents
    ensures Closure(g[top := parents], rest + {top}) == {top} + Closure(g, rest + (set p | p in parents))
  {
    hide Reachable;
    var g', below := g[top := parents], rest + (set p | p in parents);
    ClosureIsClosed(g', rest + {top});
    ClosureIsClosed(g, below);
    var all, sub := Closure(g', rest + {top}), Closure(g, below);
    assert ClosedUnder(g', rest + {top}, {top} + sub) by {
      forall c, q | c in {top} + sub && c in g' && q in g'[c] && q in g' ensures q in {top} + sub {
        assert c == top ==> q in below;
      }
    }
    ClosureIsLeast(g', rest + {top}, {top} + sub);
    assert ClosedUnder(g, below, all) by {
      forall p | p in below && p in g ensures p in all {
        assert p in parents ==> top in all && top in g' && p in g'[top];
      }
      forall c, q | c in all && c in g && q in g[c] && q in g ensures q in all {
        assert g'[c] == g[c];
      }
    }
    ClosureIsLeast(g, below, all);
  }

  // ---------------------------------------------------------------------------------------------
  // Mark loops
  // ---------------------------------------------------------------------------------------------

  /** Everything a mark loop can meet. */
  ghost function Nodes(g: Graph, roots: set<Cid>): set<Cid> {
    roots + (set c, q | c in g && q in g[c] :: q)
  }

  /** What a worklist loop over the graph keeps. */
  ghost predicate Marking(g: Graph, roots: set<Cid>, seen: set<Cid>, queue: seq<Cid>) {
    && (forall c :: c in queue || c in seen ==> c in Nodes(g, roots) && (c in g ==> c in Closure(g, roots)))
    && (forall c :: c in roots ==> c in queue || c in seen)
    && (forall c, q :: c in seen && c in g && q in g[c] ==> q in queue || q in seen)
  }

  lemma MarkingStarts(g: Graph, roots: set<Cid>, queue: seq<Cid>)
    requires forall c :: c in queue <==> c in roots
    ensures Marking(g, roots, {}, queue)
  {
    forall c | c in roots && c in g ensures c in Closure(g, roots) {
      RootReachable(g, roots, c);
    }
  }

  /** Taking a node that was seen before. */
  lemma MarkingSkips(g: Graph, roots: set<Cid>, seen: set<Cid>, queue: seq<Cid>, rest: seq<Cid>, h: Cid)
    requires Marking(g, roots, seen, queue) && h in seen
    requires forall c :: c in queue <==> c == h || c in rest
    ensures Marking(g, roots, seen, rest)
  {
  }

  /** Taking a new node: its parents, if it is on disk, join the work. */
  lemma MarkingTakes(g: Graph, roots: set<Cid>, seen: set<Cid>, queue: seq<Cid>, rest: seq<Cid>, h: Cid)
    requires Marking(g, roots, seen, queue) && h in queue
    requires forall c :: c in queue ==> c == h || c in rest
    requires forall c :: c in rest ==> c in queue || (h in g && c in g[h])
    requires h in g ==> forall q :: q in g[h] ==> q in rest
    ensures Marking(g, roots, seen + {h}, rest)
    ensures h in Nodes(g, roots)
  {
    if h in g {
      forall q | q in g[h] ensures q in Nodes(g, roots) && (q in g ==> q in Closure(g, roots)) {
        if q in g { ParentReachable(g, roots, h, q); }
      }
    }
  }

  /** When no work is left, exactly the closure has been seen on disk. */
  lemma MarkingEnds(g: Graph, roots: set<Cid>, seen: set<Cid>)
    requires Marking(g, roots, seen, [])
    ensures forall c :: c in seen && c in g <==> c in Closure(g, roots)
  {
    ClosureIsLeast(g, roots, seen);
  }
}
