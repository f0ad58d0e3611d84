/** The snapshot registry of src/policy.rs: register moves a tip to the end, prune keeps the newest. */
module Registry {
  import opened Bytes

  function Without(log: seq<Cid>, h: Cid): (r: seq<Cid>)
    ensures h !in r && |r| <= |log|
    ensures forall x :: x in r <==> x in log && x != h
  {
    if log == [] then []
    else
      var n := |log| - 1;
      assert log == log[..n] + [log[n]];
      var front := Without(log[..n], h);
      if log[n] == h then front else front + [log[n]]
  }

  /** `register_snapshot` */
  function Register(log: seq<Cid>, h: Cid): seq<Cid> { Without(log, h) + [h] }

  /** The last `n` entries. */
  function Newest(log: seq<Cid>, n: nat): seq<Cid> {
    if |log| <= n then log else log[|log| - n..]
  }

  /** `prune_snapshot_registry`: 0 keeps everything. */
  function Prune(log: seq<Cid>, retain: nat): seq<Cid> {
    if retain == 0 then log else Newest(log, retain)
  }

  /** The drain that `prune_snapshot_registry` does. */
  method PruneLog(log: seq<Cid>, retain: nat) returns (r: seq<Cid>, removed: nat)
    ensures r == Prune(log, retain) && removed == |log| - |r|
  {
    if retain == 0 || |log| <= retain {
      return log, 0;
    }
    removed := |log| - retain;
    r := log[removed..];
  }

  /** Distinct tips in the order of their last registration. */
  function History(tips: seq<Cid>): seq<Cid> {
    if tips == [] then [] else Register(History(tips[..|tips| - 1]), tips[|tips| - 1])
  }

  /** Registering and pruning at every step. */
  function Pruned(tips: seq<Cid>, retain: nat): seq<Cid> {
    if tips == [] then [] else Prune(Register(Pruned(tips[..|tips| - 1], retain), tips[|tips| - 1]), retain)
  }

  lemma {:induction false} WithoutAppend(a: seq<Cid>, b: seq<Cid>, h: Cid)
    ensures Without(a + b, h) == Without(a, h) + Without(b, h)
    decreases |b|
  {
    if b == [] {
      assert a + b == a;
    } else {
      WithoutAppend(a, b[..|b| - 1], h);
      assert (a + b)[..|a + b| - 1] == a + b[..|b| - 1];
    }
  }

  lemma {:induction false} WithoutAbsent(log: seq<Cid>, h: Cid)
    requires h !in log
    ensures Without(log, h) == log
    decreases |log|
  {
    if log != [] {
      var n := |log| - 1;
      assert log == log[..n] + [log[n]];
      WithoutAbsent(log[..n], h);
    }
  }

  predicate Distinct(log: seq<Cid>) { forall i, j :: 0 <= i < j < |log| ==> log[i] != log[j] }

  lemma {:induction false} WithoutDistinct(log: seq<Cid>, h: Cid)
    requires Distinct(log)
    ensures Distinct(Without(log, h)) && |Without(log, h)| == if h in log then |log| - 1 else |log|
    decreases |log|
  {
    if log != [] {
      var n := |log| - 1;
      assert log == log[..n] + [log[n]];
      WithoutDistinct(log[..n], h);
      var r := Without(log[..n], h);
      assert forall i :: 0 <= i < |r| ==> r[i] in log[..n];
      assert forall i :: 0 <= i < n ==> log[..n][i] == log[i];
    }
  }

  lemma {:induction false} HistoryDistinct(tips: seq<Cid>)
    ensures Distinct(History(tips))
    decreases |tips|
  {
    if tips != [] {
      var n := |tips| - 1;
      HistoryDistinct(tips[..n]);
      WithoutDistinct(History(tips[..n]), tips[n]);
      var r := Without(History(tips[..n]), tips[n]);
      assert forall i :: 0 <= i < |r| ==> r[i] in r;
    }
  }

  /** The history holds each tip once, and of two tips the one whose last registration is later stands later. */
  lemma {:induction false} HistoryIs(tips: seq<Cid>)
    ensures forall h :: h in History(tips) <==> h in tips
    ensures forall i, j :: 0 <= i < j < |History(tips)| ==>
              History(tips)[i] != History(tips)[j] && LastAt(tips, History(tips)[i]) < LastAt(tips, History(tips)[j])
    decreases |tips|
  {
    hide LastAt, Without;
    HistoryDistinct(tips);
    if tips != [] {
      var n := |tips| - 1;
      HistoryIs(tips[..n]);
      forall i, j | 0 <= i < j < |History(tips)|
        ensures LastAt(tips, History(tips)[i]) < LastAt(tips, History(tips)[j])
      {
        LaterStandsLater(tips, History(tips[..n]), i, j);
      }
    }
  }

  lemma LaterStandsLater(tips: seq<Cid>, front: seq<Cid>, i: nat, j: nat)
    requires tips != [] && i < j < |Register(front, tips[|tips| - 1])|
    requires forall x, y :: 0 <= x < y < |front| ==>
               LastAt(tips[..|tips| - 1], front[x]) < LastAt(tips[..|tips| - 1], front[y])
    ensures LastAt(tips, Register(front, tips[|tips| - 1])[i]) < LastAt(tips, Register(front, tips[|tips| - 1])[j])
  {
    hide LastAt, Without;
    var h := tips[|tips| - 1];
    var r := Without(front, h);
    assert r[i] in r;
    LastAtFront(tips, r[i]);
    if j < |r| {
      assert r[j] in r;
      LastAtFront(tips, r[j]);
      var x, y := WithoutOrder(front, h, i, j);
    } else {
      LastAtEnd(tips);
    }
  }

  /** Where a tip was last registered. */
  function LastAt(tips: seq<Cid>, h: Cid): (i: int)
    ensures -1 <= i < |tips| && (i >= 0 ==> tips[i] == h) && forall j :: i < j < |tips| ==> tips[j] != h
  {
    if tips == [] then -1 else if tips[|tips| - 1] == h then |tips| - 1 else LastAt(tips[..|tips| - 1], h)
  }

  lemma LastAtEnd(tips: seq<Cid>)
    requires tips != []
    ensures LastAt(tips, tips[|tips| - 1]) == |tips| - 1
  {
  }

  lemma LastAtFront(tips: seq<Cid>, h: Cid)
    requires tips != [] && h != tips[|tips| - 1]
    ensures LastAt(tips, h) == LastAt(tips[..|tips| - 1], h) < |tips| - 1
  {
  }

  lemma {:induction false} WithoutOrder(log: seq<Cid>, h: Cid, i: nat, j: nat) returns (x: nat, y: nat)
    requires i < j < |Without(log, h)|
    ensures x < y < |log| && log[x] == Without(log, h)[i] && log[y] == Without(log, h)[j]
    decreases |log|
  {
    var n := |log| - 1;
    var front := Without(log[..n], h);
    if j < |front| {
      x, y := WithoutOrder(log[..n], h, i, j);
    } else {
      y := n;
      assert front[i] in log[..n];
      x :| 0 <= x < n && log[..n][x] == front[i];
    }
  }

  /** Pruning before a registration loses nothing that pruning after it would have kept. */
  lemma PruneEarly(log: seq<Cid>, h: Cid, n: nat)
    requires Distinct(log) && n > 0
    ensures Newest(Register(Newest(log, n), h), n) == Newest(Register(log, h), n)
  {
    hide Without, Newest, Distinct;
    if |log| <= n {
      ShortIsNewest(log, n);
    } else {
      LongIsNewest(log, n);
      var front, back := log[..|log| - n], log[|log| - n..];
      TakeDrop(log, |log| - n);
      WithoutAppend(front, back, h);
      BackDistinct(front, back);
      if h in back {
        WithoutInBack(front, back, h);
        WithoutAbsent(front, h);
        WithoutDistinct(back, h);
        Assoc(front, Without(back, h), [h]);
        NewestOfLonger(front, Without(back, h) + [h], n);
      } else {
        WithoutAbsent(back, h);
        NewestAndOne(Without(front, h), back, h, n);
        NewestAndOne([], back, h, n);
        assert [] + back == back;
      }
    }
  }

  lemma ShortIsNewest(log: seq<Cid>, n: nat)
    requires |log| <= n
    ensures Newest(log, n) == log
  {
  }

  lemma LongIsNewest(log: seq<Cid>, n: nat)
    requires |log| > n
    ensures Newest(log, n) == log[|log| - n..]
  {
  }

  lemma NewestAndOne(a: seq<Cid>, b: seq<Cid>, h: Cid, n: nat)
    requires |b| == n > 0
    ensures Newest(a + b + [h], n) == b[1..] + [h]
  {
    assert (a + b + [h])[|a| + 1..] == b[1..] + [h];
  }

  lemma NewestOfLonger(a: seq<Cid>, b: seq<Cid>, n: nat)
    requires |b| == n
    ensures Newest(a + b, n) == b && Newest(b, n) == b
  {
  }

  lemma BackDistinct(front: seq<Cid>, back: seq<Cid>)
    requires Distinct(front + back)
    ensures Distinct(back)
  {
    assert forall i :: 0 <= i < |back| ==> (front + back)[|front| + i] == back[i];
  }

  lemma WithoutInBack(front: seq<Cid>, back: seq<Cid>, h: Cid)
    requires Distinct(front + back) && h in back
    ensures h !in front
  {
    var j :| 0 <= j < |back| && back[j] == h;
    assert (front + back)[|front| + j] == h;
    assert forall i :: 0 <= i < |front| ==> (front + back)[i] == front[i];
  }

  /** With a fixed retention the registry is the newest distinct tips, and the tip registered last is last. */
  lemma {:induction false} RegistryIsNewest(tips: seq<Cid>, retain: nat)
    requires retain > 0
    ensures Pruned(tips, retain) == Newest(History(tips), retain)
    ensures tips != [] ==>
              Pruned(tips, retain) != []
              && Pruned(tips, retain)[|Pruned(tips, retain)| - 1] == tips[|tips| - 1]
    decreases |tips|
  {
    if tips != [] {
      var n := |tips| - 1;
      RegistryIsNewest(tips[..n], retain);
      HistoryDistinct(tips[..n]);
      PruneEarly(History(tips[..n]), tips[n], retain);
    }
  }

  /** Registering the tip that was registered last, as `maybe_auto_snapshot` does after `snapshot`, changes nothing. */
  lemma RegisterTwice(log: seq<Cid>, h: Cid, retain: nat)
    ensures Prune(Register(Prune(Register(log, h), retain), h), retain) == Prune(Register(log, h), retain)
  {
    var a := Prune(Register(log, h), retain);
    var front := a[..|a| - 1];
    assert a == front + [h];
    assert h !in front by {
      assert forall i :: 0 <= i < |front| ==> front[i] in Without(log, h);
    }
    WithoutAppend(front, [h], h);
    WithoutAbsent(front, h);
    assert [h][..0] == [];
    assert Without([h], h) == [];
    assert Register(a, h) == a;
  }
}
