/** Peer placement of src/replication.rs: scores in signed 64-bit arithmetic, and the order they give. */
module Placement {
  import opened Bytes

  type Peer = bytes

  datatype PeerScore = PeerScore(peer: Peer, score: int, preferred: bool, ago: Option<u64>, hasHead: bool,
      alive: Option<bool>)

  /** What the ranking looks at besides the peers. */
  datatype View = View(prefer: seq<bytes>, lastSeen: map<Peer, u64>, alive: map<Peer, bool>,
                       have: map<Peer, set<bytes>>, head: bytes, now: u64)

  // ---------------------------------------------------------------------------------------------
  // Scoring
  // ---------------------------------------------------------------------------------------------

  /** A lookup under the peer string, then under its trimmed form. */
  function Find<T>(m: map<Peer, T>, first: Peer, second: Peer): Option<T> {
    if first in m then Some(m[first]) else if second in m then Some(m[second]) else None
  }

  predicate StandsAt(s: bytes, i: nat, part: bytes) { i + |part| <= |s| && s[i..i + |part|] == part }

  predicate Contains(s: bytes, part: bytes) {
    exists i :: 0 <= i <= |s| && StandsAt(s, i, part)
  }

  predicate Preferred(peer: Peer, prefer: seq<bytes>) {
    exists i :: 0 <= i < |prefer| &&
      (Lower(peer) == Lower(prefer[i]) || Lower(Trim(peer)) == Lower(prefer[i]) || Contains(peer, prefer[i]))
  }

  /** `as i64` */
  function AsI64(v: u64): int { if v < 0x8000_0000_0000_0000 then v else v - 0x1_0000_0000_0000_0000 }

  /** Division that truncates towards zero. */
  function Quotient(a: int, b: int): int
    requires b > 0
  {
    if a >= 0 then a / b else -(-a / b)
  }

  /** The freshness part of a score. */
  function Freshness(ago: u64): int {
    var q := Quotient(AsI64(ago), 36);
    100 - (if q < 200 then q else 200)
  }

  function Ago(v: View, peer: Peer): Option<u64> {
    match Find(v.lastSeen, peer, Trim(peer))
    case Some(t) => Some(if v.now < t then 0 else v.now - t)
    case None => None
  }

  function Score(v: View, peer: Peer): PeerScore {
    var preferred := Preferred(peer, v.prefer);
    var ago := Ago(v, peer);
    var alive := Find(v.alive, peer, Trim(peer));
    var hasHead := v.head != []
        && (match Find(v.have, Trim(peer), peer) case Some(s) => v.head in s case None => false);
    var score :=
      (if preferred then 1000 else 0)
      + (if ago.Some? then Freshness(ago.value) else -20)
      + (match alive case Some(true) => 200 case Some(false) => -300 case None => 0)
      + (if hasHead then 50 else 0);
    PeerScore(peer, score, preferred, ago, hasHead, alive)
  }

  /** An age that survives the cast: below 2^63, or so close below 2^64 that the negative quotient is 0. */
  predicate SoundAge(ago: u64) {
    ago < 0x8000_0000_0000_0000 || ago > 0xFFFF_FFFF_FFFF_FFFF - 35
  }

  /** Freshness stays between -100 and 100 exactly for sound ages; beyond them it is above 100. */
  lemma FreshnessExact(ago: u64)
    ensures -100 <= Freshness(ago)
    ensures Freshness(ago) <= 100 <==> SoundAge(ago)
  {
  }

  /** Freshness falls from 100 by one point for every 36 seconds, to -100 after two hours. */
  lemma FreshnessFalls(a: u64, b: u64)
    requires a <= b < 0x8000_0000_0000_0000
    ensures Freshness(b) <= Freshness(a) <= 100 && Freshness(0) == 100
    ensures a < 7200 ==> 36 * (100 - Freshness(a)) <= a < 36 * (101 - Freshness(a))
    ensures a >= 7200 ==> Freshness(a) == -100
  {
  }

  /** The preference has an entry that is the peer or the trimmed peer, letters in either case, or a part of it. */
  lemma PreferredExact(peer: Peer, prefer: seq<bytes>)
    ensures Preferred(peer, prefer) <==>
              exists p :: p in prefer && (Lower(p) == Lower(peer) || Lower(p) == Lower(Trim(peer)) || IsPart(p, peer))
  {
    hide Trim, Lower, IsPart, Contains;
    forall p ensures Contains(peer, p) <==> IsPart(p, peer) { PartExact(peer, p); }
  }

  ghost predicate IsPart(p: bytes, s: bytes) { exists front, back :: s == front + p + back }

  lemma PartExact(s: bytes, p: bytes)
    ensures Contains(s, p) <==> IsPart(p, s)
  {
    if Contains(s, p) {
      var i :| 0 <= i <= |s| && StandsAt(s, i, p);
      assert s == s[..i] + p + s[i + |p|..];
    }
    forall front, back | s == front + p + back ensures StandsAt(s, |front|, p) { }
    if front, back :| s == front + p + back { assert StandsAt(s, |front|, p) && |front| <= |s|; }
  }

  /** What a score shows: when the peer was seen, whether it answers and whether it has the head, each looked up under
      the peer or the trimmed peer. */
  lemma ScoreShows(v: View, peer: Peer)
    ensures var x := Score(v, peer);
            && x.peer == peer && (x.preferred <==> Preferred(peer, v.prefer))
            && (peer in v.lastSeen ==> x.ago == Some(if v.now < v.lastSeen[peer] then 0 else v.now - v.lastSeen[peer]))
            && (peer !in v.lastSeen && Trim(peer) in v.lastSeen ==>
                  x.ago == Some(if v.now < v.lastSeen[Trim(peer)] then 0 else v.now - v.lastSeen[Trim(peer)]))
            && (peer !in v.lastSeen && Trim(peer) !in v.lastSeen ==> x.ago == None)
            && (peer in v.alive ==> x.alive == Some(v.alive[peer]))
            && (peer !in v.alive && Trim(peer) in v.alive ==> x.alive == Some(v.alive[Trim(peer)]))
            && (peer !in v.alive && Trim(peer) !in v.alive ==> x.alive == None)
            && (v.head == [] ==> !x.hasHead)
            && (v.head != [] && Trim(peer) in v.have ==> (x.hasHead <==> v.head in v.have[Trim(peer)]))
            && (v.head != [] && Trim(peer) !in v.have ==> (x.hasHead <==> peer in v.have && v.head in v.have[peer]))
  {
    hide Trim, Freshness, Preferred;
  }

  /** What each of these is worth: of two peers alike in all else, being preferred is worth 1000, having the head 50,
      answering 200 and not answering -300, and a peer that was never seen ranks like one seen 72 minutes ago. */
  lemma ScoreDifferences(v: View, w: View, p: Peer, q: Peer)
    ensures var x, y := Score(v, p), Score(w, q);
            && (x.ago == y.ago && x.alive == y.alive && x.hasHead == y.hasHead && x.preferred && !y.preferred ==>
                  x.score == y.score + 1000)
            && (x.ago == y.ago && x.alive == y.alive && x.preferred == y.preferred && x.hasHead && !y.hasHead ==>
                  x.score == y.score + 50)
            && (x.ago == y.ago && x.preferred == y.preferred && x.hasHead == y.hasHead && y.alive.None? ==>
                  && (x.alive == Some(true) ==> x.score == y.score + 200)
                  && (x.alive == Some(false) ==> x.score == y.score - 300)
                  && (x.alive == None ==> x.score == y.score))
            && (x.preferred == y.preferred && x.hasHead == y.hasHead && x.alive == y.alive && y.ago.None? ==>
                  && (x.ago.None? ==> x.score == y.score)
                  && (x.ago == Some(4320) ==> x.score == y.score))
  {
    hide Preferred, Find, Trim;
  }

  /** Of two peers alike in all else the one that was seen later is ranked no lower. */
  lemma LaterSeenRanksHigher(v: View, w: View, p: Peer, q: Peer)
    requires var x, y := Score(v, p), Score(w, q);
             && x.preferred == y.preferred && x.alive == y.alive && x.hasHead == y.hasHead
             && x.ago.Some? && y.ago.Some? && x.ago.value <= y.ago.value < 0x8000_0000_0000_0000
    ensures Score(v, p).score >= Score(w, q).score
  {
    hide Preferred, Find, Trim, Freshness;
    FreshnessFalls(Score(v, p).ago.value, Score(w, q).ago.value);
  }

  /** No score overflows 64 bits, whatever the ages. */
  lemma ScoreFits(v: View, peer: Peer)
    ensures -0x8000_0000_0000_0000 <= Score(v, peer).score < 0x8000_0000_0000_0000
  {
    hide Preferred, Find, Trim;
  }

  // ---------------------------------------------------------------------------------------------
  // Ranking
  // ---------------------------------------------------------------------------------------------

  /** The comparator says that `a` may stand before `b`: a higher score, or the same score and no greater a name. */
  predicate Before(a: PeerScore, b: PeerScore) {
    a.score > b.score || (a.score == b.score && (a.peer == b.peer || Less(a.peer, b.peer)))
  }

  predicate Ordered(l: seq<PeerScore>) {
    forall i, j :: 0 <= i < j < |l| ==> Before(l[i], l[j])
  }

  lemma BeforeTransitive(a: PeerScore, b: PeerScore, c: PeerScore)
    requires Before(a, b) && Before(b, c)
    ensures Before(a, c)
  {
    if Less(a.peer, b.peer) && Less(b.peer, c.peer) { LessTransitive(a.peer, b.peer, c.peer); }
  }

  lemma BeforeTotal(a: PeerScore, b: PeerScore)
    ensures Before(a, b) || Before(b, a)
  {
    LessTotal(a.peer, b.peer);
  }

  /** Into its place, behind its equals: the sort is stable. */
  function Placed(l: seq<PeerScore>, x: PeerScore): (r: seq<PeerScore>)
    ensures multiset(r) == multiset(l) + multiset{x}
  {
    if l == [] then [x]
    else
      var n := |l| - 1;
      assert l == l[..n] + [l[n]];
      if Before(l[n], x) then l + [x] else Placed(l[..n], x) + [l[n]]
  }

  function Sorted(l: seq<PeerScore>): (r: seq<PeerScore>)
    ensures multiset(r) == multiset(l)
  {
    if l == [] then []
    else
      var n := |l| - 1;
      assert l == l[..n] + [l[n]];
      Placed(Sorted(l[..n]), l[n])
  }

  lemma InMultiset(l: seq<PeerScore>, m: seq<PeerScore>)
    requires multiset(l) == multiset(m)
    ensures forall i :: 0 <= i < |l| ==> l[i] in m
  {
    forall i | 0 <= i < |l| ensures l[i] in m {
      assert l[i] in multiset(m);
    }
  }

  lemma {:induction false} PlacedOrdered(l: seq<PeerScore>, x: PeerScore)
    requires Ordered(l)
    ensures Ordered(Placed(l, x))
    decreases |l|
  {
    if l != [] {
      var n := |l| - 1;
      if Before(l[n], x) {
        forall i | 0 <= i < n ensures Before(l[i], x) { BeforeTransitive(l[i], l[n], x); }
      } else {
        BeforeTotal(l[n], x);
        PlacedOrdered(l[..n], x);
        var r := Placed(l[..n], x);
        InMultiset(r, l[..n] + [x]);
        assert forall i :: 0 <= i < |r| ==> Before(r[i], l[n]);
      }
    }
  }

  lemma {:induction false} SortedOrdered(l: seq<PeerScore>)
    ensures Ordered(Sorted(l))
    decreases |l|
  {
    if l != [] {
      SortedOrdered(l[..|l| - 1]);
      PlacedOrdered(Sorted(l[..|l| - 1]), l[|l| - 1]);
    }
  }

  function Scores(v: View, peers: seq<Peer>): (r: seq<PeerScore>)
    ensures |r| == |peers|
  {
    seq(|peers|, i requires 0 <= i < |peers| => Score(v, peers[i]))
  }

  /** `rank_peers` */
  method RankPeers(v: View, peers: seq<Peer>) returns (ranked: seq<PeerScore>)
    ensures ranked == Sorted(Scores(v, peers))
    ensures Ordered(ranked) && multiset(ranked) == multiset(Scores(v, peers))
  {
    hide Score, Sorted;
    ranked := [];
    for i := 0 to |peers|
      invariant ranked == Scores(v, peers[..i])
    {
      ranked := ranked + [Score(v, peers[i])];
    }
    assert peers[..|peers|] == peers;
    SortedOrdered(ranked);
    ranked := Sorted(ranked);
  }

  // ---------------------------------------------------------------------------------------------
  // What the ranking promises
  // ---------------------------------------------------------------------------------------------

  predicate Dead(x: PeerScore) { x.alive == Some(false) }

  /** Preferred peers come first, and among the preferred as among the others those last probed dead come last. */
  predicate InBands(l: seq<PeerScore>) {
    forall i, j :: 0 <= i < j < |l| ==>
      && (l[j].preferred ==> l[i].preferred)
      && (l[i].preferred == l[j].preferred && Dead(l[i]) ==> Dead(l[j]))
  }

  predicate SoundAges(v: View, peers: seq<Peer>) {
    forall i :: 0 <= i < |peers| ==> Ago(v, peers[i]).None? || SoundAge(Ago(v, peers[i]).value)
  }

  /** The range of scores by preference and liveness. */
  predicate InBand(x: PeerScore) {
    var base := if x.preferred then 1000 else 0;
    if Dead(x) then base - 400 <= x.score <= base - 150 else base - 100 <= x.score <= base + 350
  }

  /** The band a score lies in. */
  lemma ScoreBand(v: View, peer: Peer)
    requires Ago(v, peer).None? || SoundAge(Ago(v, peer).value)
    ensures InBand(Score(v, peer))
  {
    hide Preferred, Find, Trim, Freshness;
    if Ago(v, peer).Some? { FreshnessExact(Ago(v, peer).value); }
  }

  /** Before second 2^63 every age is sound. */
  lemma AgesAreSound(v: View, peers: seq<Peer>)
    requires v.now < 0x8000_0000_0000_0000
    ensures SoundAges(v, peers)
  {
    hide Trim;
  }

  /** While the ages are sound, as they all are before second 2^63, the ranking is a sorted permutation in bands. */
  lemma RankingInBands(v: View, peers: seq<Peer>)
    requires SoundAges(v, peers) || v.now < 0x8000_0000_0000_0000
    ensures InBands(Sorted(Scores(v, peers)))
  {
    hide Score, Sorted, Ago, Before;
    if v.now < 0x8000_0000_0000_0000 { AgesAreSound(v, peers); }
    var ss, l := Scores(v, peers), Sorted(Scores(v, peers));
    SortedOrdered(ss);
    InMultiset(l, ss);
    forall i | 0 <= i < |peers| ensures ss[i] == Score(v, peers[i]) && InBand(ss[i]) { ScoreBand(v, peers[i]); }
    forall i, j | 0 <= i < j < |l|
      ensures (l[j].preferred ==> l[i].preferred) && (l[i].preferred == l[j].preferred && Dead(l[i]) ==> Dead(l[j]))
    {
      assert Before(l[i], l[j]) && InBand(l[i]) && InBand(l[j]);
      BandsDecide(l[i], l[j]);
    }
  }

  lemma BandsDecide(a: PeerScore, b: PeerScore)
    requires Before(a, b) && InBand(a) && InBand(b)
    ensures (b.preferred ==> a.preferred) && (a.preferred == b.preferred && Dead(a) ==> Dead(b))
  {
  }

  /** Past it they need not be: a peer seen at time 0 outranks a preferred one that was never seen. */
  lemma WrappedAgeBreaksBands(a: Peer, b: Peer)
    requires a != b && b != Trim(a) && !Preferred(b, [a])
    ensures var v := View([a], map[b := 0], map[], map[], [], 0x8000_0000_0000_0000);
            !SoundAges(v, [a, b]) && !InBands(Sorted(Scores(v, [a, b])))
  {
    hide Sorted, Trim, Less, Contains, Ordered, InBands;
    var v := View([a], map[b := 0], map[], map[], [], 0x8000_0000_0000_0000);
    var x, y, ss := Score(v, a), Score(v, b), Scores(v, [a, b]);
    assert Lower(a) == Lower([a][0]);
    assert [a, b][1] == b;
    assert ss[0] == x && ss[1] == y;
    SortedOrdered(ss);
    InMultiset(ss, Sorted(ss));
    OutOfBands(Sorted(ss), y, x);
  }

  lemma OutOfBands(l: seq<PeerScore>, x: PeerScore, y: PeerScore)
    requires Ordered(l) && x in l && y in l && !x.preferred && y.preferred && x.score > y.score
    ensures !InBands(l)
  {
    var i :| 0 <= i < |l| && l[i] == x;
    var j :| 0 <= j < |l| && l[j] == y;
    OrderedAt(l, j, i);
  }

  lemma OrderedAt(l: seq<PeerScore>, i: nat, j: nat)
    requires Ordered(l) && i < |l| && j < |l|
    ensures i < j ==> Before(l[i], l[j])
  {
  }

  // ---------------------------------------------------------------------------------------------
  // The order of the peer list does not matter
  // ---------------------------------------------------------------------------------------------

  /** Two entries that may stand before each other are of the same peer, hence the same. */
  ghost predicate OneScoreEach(l: seq<PeerScore>) {
    forall i, j :: 0 <= i < |l| && 0 <= j < |l| && l[i].peer == l[j].peer ==> l[i] == l[j]
  }

  lemma BeforeBoth(a: PeerScore, b: PeerScore)
    requires Before(a, b) && Before(b, a)
    ensures a.peer == b.peer
  {
    if a.peer != b.peer {
      LessTransitive(a.peer, b.peer, a.peer);
      LessIrreflexive(a.peer);
    }
  }

  lemma FrontsAgree(a: seq<PeerScore>, b: seq<PeerScore>)
    requires a != [] && multiset(a) == multiset(b) && Ordered(a) && Ordered(b) && OneScoreEach(a)
    ensures b != [] && a[0] == b[0]
  {
    assert a[0] in multiset(b);
    InMultiset(a, b);
    InMultiset(b, a);
    var i :| 0 <= i < |b| && b[i] == a[0];
    var j :| 0 <= j < |a| && a[j] == b[0];
    if i > 0 && j > 0 {
      assert Before(a[0], a[j]) && Before(b[0], b[i]);
      BeforeBoth(a[0], b[0]);
    }
  }

  lemma Tail<T>(a: seq<T>)
    requires a != []
    ensures multiset(a[1..]) == multiset(a) - multiset{a[0]}
  {
    assert a == [a[0]] + a[1..];
  }

  lemma TailOrdered(a: seq<PeerScore>)
    requires a != [] && Ordered(a) && OneScoreEach(a)
    ensures Ordered(a[1..]) && OneScoreEach(a[1..])
  {
    assert forall i :: 0 <= i < |a[1..]| ==> a[1..][i] == a[i + 1];
  }

  lemma {:induction false} OrderedUnique(a: seq<PeerScore>, b: seq<PeerScore>)
    requires multiset(a) == multiset(b) && Ordered(a) && Ordered(b) && OneScoreEach(a) && OneScoreEach(b)
    ensures a == b
    decreases |a|
  {
    hide Ordered, OneScoreEach;
    if a == [] {
      assert |multiset(b)| == 0;
    } else {
      FrontsAgree(a, b);
      Tail(a);
      Tail(b);
      TailOrdered(a);
      TailOrdered(b);
      OrderedUnique(a[1..], b[1..]);
      assert a == [a[0]] + a[1..] && b == [b[0]] + b[1..];
    }
  }

  /** One element taken out of the middle. */
  lemma TakeOut<T>(b: seq<T>, i: nat)
    requires i < |b|
    ensures multiset(b[..i] + b[i + 1..]) == multiset(b) - multiset{b[i]}
  {
    assert b == b[..i] + [b[i]] + b[i + 1..];
  }

  lemma ScoresTakeOut(v: View, b: seq<Peer>, i: nat)
    requires i < |b|
    ensures multiset(Scores(v, b[..i] + b[i + 1..])) == multiset(Scores(v, b)) - multiset{Score(v, b[i])}
    ensures Score(v, b[i]) in multiset(Scores(v, b))
  {
    hide Score;
    var ss := Scores(v, b);
    TakeOut(ss, i);
    assert Scores(v, b[..i] + b[i + 1..]) == ss[..i] + ss[i + 1..];
    assert ss[i] == Score(v, b[i]);
  }

  lemma {:induction false} ScoresPermute(v: View, a: seq<Peer>, b: seq<Peer>)
    requires multiset(a) == multiset(b)
    ensures multiset(Scores(v, a)) == multiset(Scores(v, b))
    decreases |a|
  {
    hide Score, Scores;
    if a == [] {
      assert |multiset(b)| == 0;
    } else {
      var i := IndexIn(a[0], a, b);
      ScoresTakeOut(v, a, 0);
      ScoresTakeOut(v, b, i);
      TakeOutBoth(a, b, i);
      ScoresPermute(v, a[..0] + a[1..], b[..i] + b[i + 1..]);
      Restore(multiset(Scores(v, a)), multiset(Scores(v, b)), Score(v, a[0]));
    }
  }

  lemma IndexIn<T>(x: T, a: seq<T>, b: seq<T>) returns (i: nat)
    requires x in a && multiset(a) == multiset(b)
    ensures i < |b| && b[i] == x
  {
    assert x in multiset(b);
    i :| 0 <= i < |b| && b[i] == x;
  }

  lemma TakeOutBoth<T>(a: seq<T>, b: seq<T>, i: nat)
    requires a != [] && i < |b| && b[i] == a[0] && multiset(a) == multiset(b)
    ensures multiset(a[..0] + a[1..]) == multiset(b[..i] + b[i + 1..])
  {
    TakeOut(a, 0);
    TakeOut(b, i);
  }

  lemma Restore<T>(x: multiset<T>, y: multiset<T>, e: T)
    requires e in x && e in y && x - multiset{e} == y - multiset{e}
    ensures x == y
  {
    assert x == (x - multiset{e}) + multiset{e} && y == (y - multiset{e}) + multiset{e};
  }

  /** The failover order is the same however the peers are listed. */
  lemma RankingIgnoresOrder(v: View, a: seq<Peer>, b: seq<Peer>)
    requires multiset(a) == multiset(b)
    ensures Sorted(Scores(v, a)) == Sorted(Scores(v, b))
  {
    hide Score, Sorted;
    var x, y := Scores(v, a), Scores(v, b);
    ScoresPermute(v, a, b);
    SortedOrdered(x);
    SortedOrdered(y);
    InMultiset(Sorted(x), x);
    forall i | 0 <= i < |a| ensures x[i] == Score(v, x[i].peer) { ScoreKeepsPeer(v, a[i]); }
    InMultiset(Sorted(y), x);
    assert OneScoreEach(Sorted(x)) && OneScoreEach(Sorted(y));
    OrderedUnique(Sorted(x), Sorted(y));
  }

  lemma ScoreKeepsPeer(v: View, peer: Peer)
    ensures Score(v, peer).peer == peer
  {
  }
}
