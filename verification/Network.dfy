/** Fetching one blob with failover (src/network.rs): peers answer as they like, and only bytes that hash to the
    requested name and are not too large are taken. */
module Network {
  import opened Bytes

  type Peer = bytes

  /** What a peer answers to a request, the n-th that is made: nothing, or any bytes at all. */
  type Answers = (Peer, Cid, nat) -> Option<bytes>

  // 16 MiB
  const MAX_BLOB_BYTES: nat := 16 * 1024 * 1024

  /** `get_chunk_from_peer` */
  function Checked(H: bytes -> Cid, answer: Option<bytes>, k: Cid): (r: Option<bytes>)
    ensures r.Some? ==> H(r.value) == k && |r.value| <= MAX_BLOB_BYTES
  {
    match answer
    case Some(b) => if |b| <= MAX_BLOB_BYTES && H(b) == k then Some(b) else None
    case None => None
  }

  /** The first good answer in the order of the peers, who are asked one after the other. */
  function FirstGood(H: bytes -> Cid, answers: Answers, peers: seq<Peer>, k: Cid, n: nat): (r: Option<(Peer, bytes)>)
    ensures r.Some? ==> r.value.0 in peers && H(r.value.1) == k && |r.value.1| <= MAX_BLOB_BYTES
  {
    if peers == [] then None
    else match Checked(H, answers(peers[0], k, n), k)
      case Some(b) => Some((peers[0], b))
      case None => FirstGood(H, answers, peers[1..], k, n + 1)
  }

  /** One peer that always has the blob is enough, whatever the others do. */
  lemma {:induction false} HonestPeerSuffices(H: bytes -> Cid, answers: Answers, peers: seq<Peer>, k: Cid, n: nat,
                                              honest: Peer)
    requires honest in peers
    requires forall m: nat :: answers(honest, k, m).Some? && H(answers(honest, k, m).value) == k
                              && |answers(honest, k, m).value| <= 16 * 1024 * 1024
    ensures FirstGood(H, answers, peers, k, n).Some?
    decreases |peers|
  {
    if peers[0] != honest {
      HonestPeerSuffices(H, answers, peers[1..], k, n + 1, honest);
    }
  }

  /** A request and its answer. */
  datatype Exchange = Exchange(peer: Peer, k: Cid, answer: Option<bytes>)

  /** From position `lo` of the log on, one of the peers gave these bytes when asked for `k`. */
  ghost predicate FromPeer(log: seq<Exchange>, lo: nat, peers: seq<Peer>, k: Cid, data: bytes) {
    exists i :: lo <= i < |log| && log[i].peer in peers && log[i].k == k && log[i].answer == Some(data)
  }

  /** From position `lo` on, every peer was asked for `k` and had no good answer. */
  ghost predicate AllFailed(H: bytes -> Cid, log: seq<Exchange>, lo: nat, peers: seq<Peer>, k: Cid) {
    forall p :: p in peers ==>
        exists i :: lo <= i < |log| && log[i].peer == p && log[i].k == k && Checked(H, log[i].answer, k).None?
  }

  /** The log has been continued, and what it gained is what the peers answer. */
  ghost predicate Continued(answers: Answers, before: seq<Exchange>, log: seq<Exchange>) {
    before <= log && forall i :: |before| <= i < |log| ==> log[i].answer == answers(log[i].peer, log[i].k, i)
  }

  lemma ContinuedTwice(answers: Answers, a: seq<Exchange>, b: seq<Exchange>, c: seq<Exchange>)
    requires Continued(answers, a, b) && Continued(answers, b, c)
    ensures Continued(answers, a, c)
  {
    assert forall i :: 0 <= i < |b| ==> c[i] == b[i];
  }

  /** What was said stays said. */
  lemma FromPeerLater(a: seq<Exchange>, b: seq<Exchange>, lo: nat, hi: nat, peers: seq<Peer>, k: Cid, data: bytes)
    requires FromPeer(a, hi, peers, k, data) && a <= b && lo <= hi
    ensures FromPeer(b, lo, peers, k, data)
  {
    var i :| hi <= i < |a| && a[i].peer in peers && a[i].k == k && a[i].answer == Some(data);
    assert b[i] == a[i];
  }

  lemma AllFailedLater(H: bytes -> Cid, log: seq<Exchange>, lo: nat, hi: nat, peers: seq<Peer>, k: Cid)
    requires AllFailed(H, log, hi, peers, k) && lo <= hi
    ensures AllFailed(H, log, lo, peers, k)
  {
    hide Checked;
  }

  class Net {
    const answers: Answers
    /** The requests made so far, with their answers. */
    var log: seq<Exchange>

    constructor (answers: Answers)
      ensures this.answers == answers && log == []
    {
      this.answers, log := answers, [];
    }

    /** `get_blob_with_failover` */
    method GetBlob(H: bytes -> Cid, peers: seq<Peer>, k: Cid) returns (r: Option<(Peer, bytes)>)
      modifies this`log
      ensures r == FirstGood(H, answers, peers, k, |old(log)|) && |log| <= |old(log)| + |peers|
      ensures Continued(answers, old(log), log)
      ensures r.Some? ==> FromPeer(log, |old(log)|, peers, k, r.value.1)
      ensures r.None? ==> AllFailed(H, log, |old(log)|, peers, k)
    {
      hide Checked, Continued;
      ghost var lo := |log|;
      NothingSaidYet(answers, log);
      for i := 0 to |peers|
        invariant |log| == lo + i && Continued(answers, old(log), log)
        invariant FirstGood(H, answers, peers, k, lo) == FirstGood(H, answers, peers[i..], k, |log|)
        invariant forall j :: 0 <= j < i ==> Failed(H, log[lo + j], peers[j], k)
      {
        var answer := answers(peers[i], k, |log|);
        var data := Checked(H, answer, k);
        assert peers[i..][0] == peers[i] && peers[i..][1..] == peers[i + 1..];
        OneMoreSaid(answers, old(log), log, Exchange(peers[i], k, answer));
        log := log + [Exchange(peers[i], k, answer)];
        if data.Some? {
          GoodIsSome(H, answer, k);
          assert log[lo + i].peer in peers;
          return Some((peers[i], data.value));
        }
      }
      EveryoneFailed(H, log, lo, peers, k);
      r := None;
    }
  }

  lemma NothingSaidYet(answers: Answers, log: seq<Exchange>)
    ensures Continued(answers, log, log)
  {
  }

  lemma OneMoreSaid(answers: Answers, before: seq<Exchange>, log: seq<Exchange>, x: Exchange)
    requires Continued(answers, before, log) && x.answer == answers(x.peer, x.k, |log|)
    ensures Continued(answers, before, log + [x]) && log <= log + [x] && (log + [x])[|log|] == x
  {
    assert forall i :: 0 <= i < |log| ==> (log + [x])[i] == log[i];
  }

  lemma EveryoneFailed(H: bytes -> Cid, log: seq<Exchange>, lo: nat, peers: seq<Peer>, k: Cid)
    requires |log| == lo + |peers| && forall j :: 0 <= j < |peers| ==> Failed(H, log[lo + j], peers[j], k)
    ensures AllFailed(H, log, lo, peers, k)
  {
    hide Checked;
    forall p | p in peers
      ensures exists i :: lo <= i < |log| && log[i].peer == p && log[i].k == k && Checked(H, log[i].answer, k).None?
    {
      var j :| 0 <= j < |peers| && peers[j] == p;
      assert Failed(H, log[lo + j], peers[j], k);
    }
  }

  ghost predicate Failed(H: bytes -> Cid, x: Exchange, p: Peer, k: Cid) {
    x.peer == p && x.k == k && Checked(H, x.answer, k).None?
  }

  lemma GoodIsSome(H: bytes -> Cid, answer: Option<bytes>, k: Cid)
    requires Checked(H, answer, k).Some?
    ensures answer == Checked(H, answer, k)
  {
  }
}
