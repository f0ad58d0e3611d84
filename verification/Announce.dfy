/** The replay protocol of src/network.rs: nodes that number and sign their announcements, a network that drops,
    repeats, reorders and invents messages, and receivers that keep one counter per vault and announcer. */
module Announce {
  import opened Bytes
  import opened Texts
  import opened TreeCodec
  import opened Commits
  import opened Heads

  const MAX_SKEW_SECS: nat := 300

  // ---------------------------------------------------------------------------------------------
  // One receiver
  // ---------------------------------------------------------------------------------------------

  /** The vault an announcement is checked against: its id and its members' ids as text. */
  datatype Local = Local(vaultId: VaultId, members: seq<bytes>)

  /** `is_member`: no list means anyone. */
  predicate IsMember(members: seq<bytes>, node: Cid) {
    members == [] || exists i :: 0 <= i < |members| && Lower(members[i]) == Lower(HexEncode(node.raw))
  }

  /** A node is a member if the list is empty or has its 64 digits, letters in either case. */
  lemma IsMemberExact(members: seq<bytes>, node: Cid)
    ensures IsMember(members, node) <==>
              members == [] || exists i :: 0 <= i < |members| && SameDigits(members[i], node.raw)
  {
    hide HexEncode, Lower;
    HexIsLower(node.raw);
    forall i | 0 <= i < |members|
      ensures Lower(members[i]) == Lower(HexEncode(node.raw)) <==> SameDigits(members[i], node.raw)
    {
      SameDigitsExact(members[i], node.raw);
    }
  }

  /** The text has two digits for each byte, the higher one first; 'a' to 'f' may be in upper case. */
  predicate SameDigits(text: bytes, b: bytes) {
    && |text| == 2 * |b|
    && forall i :: 0 <= i < |b| ==> IsDigit(text[2 * i], b[i] / 16) && IsDigit(text[2 * i + 1], b[i] % 16)
  }

  predicate IsDigit(x: byte, n: int) {
    if n < 10 then x == 48 + n else x == 97 + (n - 10) || x == 65 + (n - 10)
  }

  lemma HexIsLower(b: bytes)
    ensures Lower(HexEncode(b)) == HexEncode(b)
  {
    hide HexEncode;
    HexRoundTrip(b);
    HexDecodeExact(HexEncode(b), b);
  }

  lemma SameDigitsExact(text: bytes, b: bytes)
    ensures Lower(text) == HexEncode(b) <==> SameDigits(text, b)
  {
    hide HexEncode, LowerByte;
    var l, e := Lower(text), HexEncode(b);
    if |text| == 2 * |b| {
      forall i | 0 <= i < |b|
        ensures l[2 * i] == e[2 * i] && l[2 * i + 1] == e[2 * i + 1] <==>
                  IsDigit(text[2 * i], b[i] / 16) && IsDigit(text[2 * i + 1], b[i] % 16)
      {
        HexDigits(b, i);
        DigitIsLower(text[2 * i], b[i] / 16);
        DigitIsLower(text[2 * i + 1], b[i] % 16);
      }
      if SameDigits(text, b) {
        forall j | 0 <= j < |e| ensures l[j] == e[j] {
          var i := j / 2;
          assert IsDigit(text[2 * i], b[i] / 16) && IsDigit(text[2 * i + 1], b[i] % 16);
          assert l[2 * i] == e[2 * i] && l[2 * i + 1] == e[2 * i + 1];
        }
      }
    }
  }

  lemma DigitIsLower(x: byte, n: int)
    requires 0 <= n < 16
    ensures LowerByte(x) == DIGITS[n] as int <==> IsDigit(x, n)
  {
    DigitIs(n);
  }

  /** `verify_head_announcement` */
  predicate Verified(V: Verifier, a: Announcement) {
    a.signature != NO_SIGNATURE && a.version == PROTOCOL_VERSION && V(a.nodeId, HeadMessage(a), a.signature)
  }

  /** `check_head_skew` */
  predicate Timely(a: Announcement, now: u64) {
    (if now < a.timestamp then a.timestamp - now else now - a.timestamp) <= MAX_SKEW_SECS
  }

  predicate ForVault(a: Announcement, local: Option<Local>) {
    local.None? || (local.value.vaultId == a.vaultId && IsMember(local.value.members, a.nodeId))
  }

  type Counters = map<(VaultId, Cid), u64>

  function Counter(m: Counters, a: Announcement): u64 {
    if (a.vaultId, a.nodeId) in m then m[(a.vaultId, a.nodeId)] else 0
  }

  /** Everything `validate_announcement` demands. */
  predicate Accepts(V: Verifier, m: Counters, a: Announcement, now: u64, local: Option<Local>) {
    Verified(V, a) && Timely(a, now) && ForVault(a, local) && a.sequence > Counter(m, a)
  }

  datatype Rejection = Unsigned | BadVersion | BadSignature | Skewed | WrongVault | NotAMember | Replay

  /** A node's sequence state: what it has announced per vault, and what it has accepted. */
  class Node {
    const V: Verifier
    var announced: map<VaultId, u64>
    var received: Counters

    constructor (V: Verifier)
      ensures this.V == V && announced == map[] && received == map[]
    {
      this.V, announced, received := V, map[], map[];
    }

    /** `next_announce_seq`: read, add one in 64 bits, write back. */
    method NextAnnounceSeq(vaultId: VaultId) returns (next: u64)
      modifies this`announced
      ensures next == NextSeq(old(announced), vaultId) && announced == old(announced)[vaultId := next]
      ensures var last := if vaultId in old(announced) then old(announced)[vaultId] else 0;
              next == if last == 0xFFFF_FFFF_FFFF_FFFF then 0 else last + 1
    {
      var last: int := if vaultId in announced then announced[vaultId] else 0;
      next := (last + 1) % 0x1_0000_0000_0000_0000;
      announced := announced[vaultId := next];
    }

    /** `validate_announcement`: accepted exactly when everything demanded holds; then the counter is the sequence
        number, and otherwise nothing has changed. */
    method Validate(a: Announcement, now: u64, local: Option<Local>) returns (r: Result<(), Rejection>)
      modifies this`received
      ensures r.Ok? <==> Accepts(V, old(received), a, now, local)
      ensures r == Err(Replay) <==>
                Verified(V, a) && Timely(a, now) && ForVault(a, local) && a.sequence <= Counter(old(received), a)
      ensures received == if r.Ok? then old(received)[(a.vaultId, a.nodeId) := a.sequence] else old(received)
      ensures var zeros := a.signature == seq(64, i => 0);
              var late := a.timestamp + 300 < now || now + 300 < a.timestamp;
              var member := local.None? || local.value.members == []
                            || exists i :: 0 <= i < |local.value.members|
                                 && SameDigits(local.value.members[i], a.nodeId.raw);
              var key := (a.vaultId, a.nodeId);
              r == if zeros then Err(Unsigned)
                   else if a.version != 1 then Err(BadVersion)
                   else if !V(a.nodeId, HeadMessage(a), a.signature) then Err(BadSignature)
                   else if late then Err(Skewed)
                   else if local.Some? && local.value.vaultId != a.vaultId then Err(WrongVault)
                   else if !member then Err(NotAMember)
                   else if a.sequence == 0 || (key in old(received) && a.sequence <= old(received)[key])
                       then Err(Replay)
                   else Ok(())
    {
      hide HeadMessage, SameDigits, IsMember;
      AllZeros(64);
      if local.Some? { IsMemberExact(local.value.members, a.nodeId); }
      if a.signature == NO_SIGNATURE { return Err(Unsigned); }
      if a.version != PROTOCOL_VERSION { return Err(BadVersion); }
      var message := EncodeHeadMessage(a);
      if !V(a.nodeId, message, a.signature) { return Err(BadSignature); }
      var skew := if now < a.timestamp then a.timestamp - now else now - a.timestamp;
      if skew > MAX_SKEW_SECS { return Err(Skewed); }
      if local.Some? {
        if local.value.vaultId != a.vaultId { return Err(WrongVault); }
        if !IsMember(local.value.members, a.nodeId) { return Err(NotAMember); }
      }
      if a.sequence <= Counter(received, a) { return Err(Replay); }
      received := received[(a.vaultId, a.nodeId) := a.sequence];
      r := Ok(());
    }
  }

  function NextSeq(announced: map<VaultId, u64>, vaultId: VaultId): u64 {
    var last: int := if vaultId in announced then announced[vaultId] else 0;
    (last + 1) % 0x1_0000_0000_0000_0000
  }

  // ---------------------------------------------------------------------------------------------
  // Many nodes and a hostile network
  // ---------------------------------------------------------------------------------------------

  datatype Counts = Counts(announced: map<VaultId, u64>, received: Counters)

  datatype Accepted = Accepted(who: Cid, ann: Announcement)

  /** The honest nodes by key, what each of them has signed, the announcements they have issued, and who has
      accepted what, in order. */
  datatype World = World(nodes: map<Cid, Counts>, signed: set<(Cid, bytes)>, issued: seq<Announcement>,
      log: seq<Accepted>)

  /** What the cryptography does: keys sign, the relation verifies. */
  datatype Keys = Keys(H: bytes -> Cid, V: Verifier, sign: (Cid, bytes) -> Signature)

  datatype Event =
    | Issues(node: Cid, vaultId: VaultId, vaultName: bytes, head: Cid, time: u64, configSeq: u64)
    | SignsCommit(node: Cid, commit: Commit)
    | Receives(node: Cid, ann: Announcement, now: u64, local: Option<Local>)

  /** An honest node acts, or any message at all arrives at one. The network cannot make an honest node's key verify
      a message which that node has not signed. */
  ghost predicate Possible(k: Keys, w: World, e: Event) {
    && e.node in w.nodes
    && match e
       case Issues(_, _, _, _, _, _) => true
       case SignsCommit(_, c) => CommitFits(c)
       case Receives(_, a, _, _) =>
         a.nodeId in w.nodes && k.V(a.nodeId, HeadMessage(a), a.signature) ==> (a.nodeId, HeadMessage(a)) in w.signed
  }

  function MakeAnnouncement(k: Keys, w: World, e: Event): Announcement
    requires e.Issues? && e.node in w.nodes
  {
    var a := Announcement(PROTOCOL_VERSION, e.vaultId, e.vaultName, e.head, e.time, e.node,
                          NextSeq(w.nodes[e.node].announced, e.vaultId), e.configSeq, NO_SIGNATURE);
    a.(signature := k.sign(e.node, HeadMessage(a)))
  }

  function After(k: Keys, w: World, e: Event): World
    requires e.node in w.nodes && (e.SignsCommit? ==> CommitFits(e.commit))
  {
    var n := w.nodes[e.node];
    match e
    case Issues(node, vaultId, _, _, _, _) =>
      var a := MakeAnnouncement(k, w, e);
      World(w.nodes[node := n.(announced := n.announced[vaultId := a.sequence])], w.signed + {(node, HeadMessage(a))},
            w.issued + [a], w.log)
    case SignsCommit(node, c) => w.(signed := w.signed + {(node, SignMessage(k.H, c))})
    case Receives(node, a, now, local) =>
      if Accepts(k.V, n.received, a, now, local) then
        w.(nodes := w.nodes[node := n.(received := n.received[(a.vaultId, a.nodeId) := a.sequence])],
           log := w.log + [Accepted(node, a)])
      else w
  }

  /** A run: the worlds it passes through and the events between them. */
  ghost predicate Run(k: Keys, ws: seq<World>, es: seq<Event>) {
    && |ws| == |es| + 1
    && forall i, j :: 0 <= i < |es| && j == i + 1 ==> Possible(k, ws[i], es[i]) && ws[j] == After(k, ws[i], es[i])
  }

  predicate Fresh(w: World) {
    w.signed == {} && w.issued == [] && w.log == [] && forall n :: n in w.nodes ==> w.nodes[n] == Counts(map[], map[])
  }

  // ---------------------------------------------------------------------------------------------
  // What every run keeps
  // ---------------------------------------------------------------------------------------------

  predicate SameChannel(x: Accepted, y: Accepted) {
    x.who == y.who && x.ann.vaultId == y.ann.vaultId && x.ann.nodeId == y.ann.nodeId
  }

  /** Each receiver's accepted sequence numbers per vault and announcer strictly increase. */
  ghost predicate Increasing(log: seq<Accepted>) {
    forall i, j :: 0 <= i < j < |log| && SameChannel(log[i], log[j]) ==> log[i].ann.sequence < log[j].ann.sequence
  }

  /** What has been accepted in an honest announcer's name has been issued by it, but for display name and signature
      bytes. */
  ghost predicate Authentic(w: World, x: Accepted) {
    x.ann.nodeId in w.nodes ==> exists i :: 0 <= i < |w.issued| && SameSigned(w.issued[i], x.ann)
  }

  /** A counter stands where the last acceptance on its channel left it: no accepted number is above it, and it is
      0 or an accepted number. */
  ghost predicate CounterRight(w: World, n: Cid, key: (VaultId, Cid)) {
    && (forall i :: 0 <= i < |w.log| && w.log[i].who == n && (w.log[i].ann.vaultId, w.log[i].ann.nodeId) == key ==>
          n in w.nodes && key in w.nodes[n].received && w.log[i].ann.sequence <= w.nodes[n].received[key])
    && (n in w.nodes && key in w.nodes[n].received ==>
          exists i :: 0 <= i < |w.log| && w.log[i].who == n && (w.log[i].ann.vaultId, w.log[i].ann.nodeId) == key
            && w.log[i].ann.sequence == w.nodes[n].received[key])
  }

  /** Whatever honest keys have signed is an announcement that was issued or a commit. */
  ghost predicate SignedRight(k: Keys, w: World) {
    forall x :: x in w.signed ==>
      || (exists i :: 0 <= i < |w.issued| && w.issued[i].nodeId == x.0 && HeadMessage(w.issued[i]) == x.1)
      || (exists c :: CommitFits(c) && SignMessage(k.H, c) == x.1)
  }

  ghost predicate Inv(k: Keys, w: World) {
    && Increasing(w.log)
    && (forall i :: 0 <= i < |w.log| ==> Authentic(w, w.log[i]))
    && (forall n, key :: CounterRight(w, n, key))
    && SignedRight(k, w)
  }

  lemma FreshIsInv(k: Keys, w: World)
    requires Fresh(w)
    ensures Inv(k, w)
  {
  }

  lemma IssueKeeps(k: Keys, w: World, e: Event)
    requires Inv(k, w) && Possible(k, w, e) && e.Issues?
    ensures Inv(k, After(k, w, e))
  {
    hide HeadMessage, SignMessage, CommitFits, SameSigned;
    var w', a := After(k, w, e), MakeAnnouncement(k, w, e);
    SignatureIsNotSigned(a.(signature := NO_SIGNATURE), a);
    forall i | 0 <= i < |w'.log| ensures Authentic(w', w'.log[i]) {
      assert Authentic(w, w.log[i]);
      if w.log[i].ann.nodeId in w.nodes {
        var j :| 0 <= j < |w.issued| && SameSigned(w.issued[j], w.log[i].ann);
        assert w'.issued[j] == w.issued[j];
      }
    }
    forall n, key ensures CounterRight(w', n, key) {
      assert CounterRight(w, n, key);
    }
    forall x | x in w'.signed
        ensures (exists i :: 0 <= i < |w'.issued| && w'.issued[i].nodeId == x.0 && HeadMessage(w'.issued[i]) == x.1)
                                   || (exists c :: CommitFits(c) && SignMessage(k.H, c) == x.1) {
      if x in w.signed {
        if i :| 0 <= i < |w.issued| && w.issued[i].nodeId == x.0 && HeadMessage(w.issued[i]) == x.1 {
          assert w'.issued[i] == w.issued[i];
        }
      } else {
        assert w'.issued[|w.issued|] == a;
      }
    }
  }

  lemma SignatureIsNotSigned(a: Announcement, b: Announcement)
    requires b == a.(signature := b.signature)
    ensures HeadMessage(a) == HeadMessage(b)
  {
    hide HeadMessage;
    HeadMessageInjective(a, b);
  }

  lemma CommitKeeps(k: Keys, w: World, e: Event)
    requires Inv(k, w) && Possible(k, w, e) && e.SignsCommit?
    ensures Inv(k, After(k, w, e))
  {
    hide HeadMessage, SignMessage, CommitFits, SameSigned;
    var w' := After(k, w, e);
    forall i | 0 <= i < |w'.log| ensures Authentic(w', w'.log[i]) {
      assert Authentic(w, w.log[i]);
    }
    forall n, key ensures CounterRight(w', n, key) {
      assert CounterRight(w, n, key);
    }
  }

  /** What verifies under an honest key is an announcement that node issued: it has signed nothing else that could
      pass for one. */
  lemma VerifiedWasIssued(k: Keys, w: World, a: Announcement)
    requires SignedRight(k, w) && (a.nodeId, HeadMessage(a)) in w.signed
    ensures exists i :: 0 <= i < |w.issued| && SameSigned(w.issued[i], a)
  {
    hide HeadMessage, SignMessage, CommitFits;
    if i :| 0 <= i < |w.issued| && w.issued[i].nodeId == a.nodeId && HeadMessage(w.issued[i]) == HeadMessage(a) {
      HeadMessageInjective(w.issued[i], a);
    } else {
      var c :| CommitFits(c) && SignMessage(k.H, c) == HeadMessage(a);
      NotACommit(k.H, c, a);
    }
  }

  lemma NotACommit(H: bytes -> Cid, c: Commit, a: Announcement)
    requires CommitFits(c)
    ensures SignMessage(H, c) != HeadMessage(a)
  {
    hide HeadMessage, SignMessage, CommitFits;
    NothingIsEncodable();
    PreimagesSeparate(H, c, c, a, map[]);
  }

  lemma NothingIsEncodable()
    ensures Encodable(map[])
  {
  }

  lemma AcceptKeeps(k: Keys, w: World, e: Event)
    requires Inv(k, w) && Possible(k, w, e) && e.Receives?
    ensures Inv(k, After(k, w, e))
  {
    hide HeadMessage, SignMessage, CommitFits, SameSigned, Timely, ForVault, NO_SIGNATURE;
    var w', a, n := After(k, w, e), e.ann, w.nodes[e.node];
    if Accepts(k.V, n.received, a, e.now, e.local) {
      var key := (a.vaultId, a.nodeId);
      assert CounterRight(w, e.node, key);
      assert w'.log[|w.log|] == Accepted(e.node, a);
      forall i | 0 <= i < |w.log| && SameChannel(w.log[i], Accepted(e.node, a))
        ensures w.log[i].ann.sequence < a.sequence
      {
      }
      forall i | 0 <= i < |w'.log| ensures Authentic(w', w'.log[i]) {
        if i < |w.log| {
          assert Authentic(w, w.log[i]);
        } else if a.nodeId in w.nodes {
          VerifiedWasIssued(k, w, a);
        }
      }
      forall m, y ensures CounterRight(w', m, y) {
        CounterStep(k, w, e, m, y);
      }
    }
  }

  lemma CounterStep(k: Keys, w: World, e: Event, m: Cid, y: (VaultId, Cid))
    requires CounterRight(w, m, y) && Possible(k, w, e) && e.Receives?
              && Accepts(k.V, w.nodes[e.node].received, e.ann, e.now, e.local)
    ensures CounterRight(After(k, w, e), m, y)
  {
    hide HeadMessage, SignMessage, CommitFits, SameSigned, Verified, Timely, ForVault;
    var w', a := After(k, w, e), e.ann;
    assert w'.log == w.log + [Accepted(e.node, a)];
    if m == e.node && y == (a.vaultId, a.nodeId) {
      assert w'.log[|w.log|].ann.sequence == w'.nodes[m].received[y];
    } else if m in w'.nodes && y in w'.nodes[m].received {
      var i :| 0 <= i < |w.log| && w.log[i].who == m && (w.log[i].ann.vaultId, w.log[i].ann.nodeId) == y
               && w.log[i].ann.sequence == w.nodes[m].received[y];
      assert w'.log[i] == w.log[i];
    }
  }

  lemma StepKeeps(k: Keys, w: World, e: Event)
    requires Inv(k, w) && Possible(k, w, e)
    ensures Inv(k, After(k, w, e))
  {
    hide Inv, Possible, After;
    match e {
      case Issues(_, _, _, _, _, _) => IssueKeeps(k, w, e);
      case SignsCommit(_, _) => CommitKeeps(k, w, e);
      case Receives(_, _, _, _) => AcceptKeeps(k, w, e);
    }
  }

  lemma RunStep(k: Keys, ws: seq<World>, es: seq<Event>, i: nat)
    requires Run(k, ws, es) && i < |es|
    ensures Possible(k, ws[i], es[i]) && ws[i + 1] == After(k, ws[i], es[i])
  {
  }

  lemma {:induction false} RunKeeps(k: Keys, ws: seq<World>, es: seq<Event>, i: nat)
    requires Run(k, ws, es) && Fresh(ws[0]) && i <= |es|
    ensures Inv(k, ws[i])
    decreases i
  {
    hide Inv, Possible, After, Fresh;
    if i == 0 {
      FreshIsInv(k, ws[0]);
    } else {
      RunKeeps(k, ws, es, i - 1);
      RunStep(k, ws, es, i - 1);
      StepKeeps(k, ws[i - 1], es[i - 1]);
    }
  }

  /** The replay protocol: at every point of every run, whatever the network did, each receiver's accepted numbers
      per vault and announcer strictly increase, so nothing was accepted twice; what was accepted in an honest
      node's name was issued by it; and a receiver's counter for an honest announcer is a number that one issued. */
  lemma ReplayProtocol(k: Keys, ws: seq<World>, es: seq<Event>, t: nat)
    requires Run(k, ws, es) && Fresh(ws[0]) && t <= |es|
    ensures Increasing(ws[t].log)
    ensures forall i, j :: 0 <= i < j < |ws[t].log| ==> ws[t].log[i] != ws[t].log[j]
    ensures forall i :: 0 <= i < |ws[t].log| ==> Authentic(ws[t], ws[t].log[i])
    ensures forall n, key :: n in ws[t].nodes && key in ws[t].nodes[n].received && key.1 in ws[t].nodes ==>
              WasIssued(ws[t], key, ws[t].nodes[n].received[key])
  {
    hide Possible, After, SameSigned;
    RunKeeps(k, ws, es, t);
    var w := ws[t];
    forall i, j | 0 <= i < j < |w.log| ensures w.log[i] != w.log[j] {
      assert w.log[i] == w.log[j] ==> SameChannel(w.log[i], w.log[j]);
    }
    forall n, key | n in w.nodes && key in w.nodes[n].received && key.1 in w.nodes
      ensures WasIssued(w, key, w.nodes[n].received[key])
    {
      assert CounterRight(w, n, key);
      var i :| 0 <= i < |w.log| && w.log[i].who == n && (w.log[i].ann.vaultId, w.log[i].ann.nodeId) == key
               && w.log[i].ann.sequence == w.nodes[n].received[key];
      assert Authentic(w, w.log[i]);
      var j :| 0 <= j < |w.issued| && SameSigned(w.issued[j], w.log[i].ann);
      SignedFields(w.issued[j], w.log[i].ann);
    }
  }

  lemma SignedFields(a: Announcement, b: Announcement)
    requires SameSigned(a, b)
    ensures a.vaultId == b.vaultId && a.nodeId == b.nodeId && a.sequence == b.sequence
  {
  }

  /** The node issued an announcement for the vault under this number. */
  ghost predicate WasIssued(w: World, key: (VaultId, Cid), sequence: u64) {
    exists i :: 0 <= i < |w.issued| && (w.issued[i].vaultId, w.issued[i].nodeId) == key
        && w.issued[i].sequence == sequence
  }

  // ---------------------------------------------------------------------------------------------
  // Until a counter runs out, new announcements get through
  // ---------------------------------------------------------------------------------------------

  /** No number has been issued above its node's counter. */
  ghost predicate IssuedBelow(w: World) {
    forall i :: 0 <= i < |w.issued| ==>
      var a := w.issued[i];
      a.nodeId in w.nodes && a.vaultId in w.nodes[a.nodeId].announced
          && a.sequence <= w.nodes[a.nodeId].announced[a.vaultId]
  }

  /** The counter is not about to run over. */
  predicate RunsOn(w: World, e: Event)
    requires e.node in w.nodes
  {
    e.Issues? ==> NextSeq(w.nodes[e.node].announced, e.vaultId) != 0
  }

  lemma StepIssuesBelow(k: Keys, w: World, e: Event)
    requires Possible(k, w, e) && IssuedBelow(w) && RunsOn(w, e)
    ensures IssuedBelow(After(k, w, e))
  {
    hide HeadMessage, SignMessage, CommitFits, Verified, Timely, ForVault;
    var w' := After(k, w, e);
    forall i | 0 <= i < |w'.issued| ensures
      var a := w'.issued[i];
      a.nodeId in w'.nodes && a.vaultId in w'.nodes[a.nodeId].announced
          && a.sequence <= w'.nodes[a.nodeId].announced[a.vaultId]
    {
      if i < |w.issued| { assert w'.issued[i] == w.issued[i]; }
    }
  }

  lemma {:induction false} RunIssuesBelow(k: Keys, ws: seq<World>, es: seq<Event>, i: nat)
    requires Run(k, ws, es) && Fresh(ws[0]) && i <= |es|
    requires forall j :: 0 <= j < i ==> es[j].node in ws[j].nodes && RunsOn(ws[j], es[j])
    ensures IssuedBelow(ws[i])
    decreases i
  {
    hide Possible, After, RunsOn;
    if i > 0 {
      RunIssuesBelow(k, ws, es, i - 1);
      RunStep(k, ws, es, i - 1);
      StepIssuesBelow(k, ws[i - 1], es[i - 1]);
    }
  }

  /** While no counter has run over, an honest node's next announcement passes the replay check of every receiver
      exactly when its own counter does not run over with it: the number after 2^64 - 1 is 0, which nobody accepts. */
  lemma NextGetsThrough(k: Keys, ws: seq<World>, es: seq<Event>, e: Event, to: Cid, now: u64, local: Option<Local>)
    requires Run(k, ws, es) && Fresh(ws[0]) && forall j :: 0 <= j < |es| ==>
              es[j].node in ws[j].nodes && RunsOn(ws[j], es[j])
    requires var w := ws[|es|]; e.Issues? && e.node in w.nodes && to in w.nodes
    requires var a := MakeAnnouncement(k, ws[|es|], e); Verified(k.V, a) && Timely(a, now) && ForVault(a, local)
    ensures var w := ws[|es|];
            Accepts(k.V, w.nodes[to].received, MakeAnnouncement(k, w, e), now, local) <==> RunsOn(w, e)
  {
    hide Possible, After, Verified, Timely, ForVault;
    var w := ws[|es|];
    var a := MakeAnnouncement(k, w, e);
    RunIssuesBelow(k, ws, es, |es|);
    var key := (a.vaultId, a.nodeId);
    if key in w.nodes[to].received {
      ReplayProtocol(k, ws, es, |es|);
      assert WasIssued(w, key, w.nodes[to].received[key]);
    }
  }
}
