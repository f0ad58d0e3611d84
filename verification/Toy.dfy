/** A vault small enough to compute with: objects are named by their length, nothing is encrypted or signed. It
    serves to exhibit inputs on which a claim fails. */
module Toy {
  import opened Bytes
  import opened Trees
  import opened Cbor
  import opened Records
  import opened TreeCodec
  import opened Frames
  import opened Commits
  import opened Chunking
  import opened Disks
  import opened Versions

  function Name(n: nat): Cid { Cid([n / 65536 % 256, n / 256 % 256, n % 256] + Zeros(29)) }

  lemma NamesDiffer(a: nat, b: nat)
    requires a < 65536 && b < 65536 && Name(a) == Name(b)
    ensures a == b
  {
    assert Name(a).raw[1] == a / 256 % 256 && Name(a).raw[2] == a % 256;
    assert Name(b).raw[1] == b / 256 % 256 && Name(b).raw[2] == b % 256;
  }

  const TOY: Env := Env(x => Name(|x|), (k, m, s) => false, Plain, data => [Span(0, |data|)], Anonymous)

  lemma ToyIsTrusted()
    ensures Trusted(TOY)
  {
    forall data: bytes ensures Contiguous(TOY.cut(data), |data|) {
      assert TOY.cut(data)[..0] == [];
    }
  }

  // ---------------------------------------------------------------------------------------------
  // Lengths
  // ---------------------------------------------------------------------------------------------

  lemma SmallHead(major: int, v: u64)
    requires 0 <= major < 8 && v < 24
    ensures |UintBytes(major, v)| == 1
  {
  }

  lemma EmptyTreeLength()
    ensures Encodable(map[]) && |TreeWire(map[])| == 19
  {
    SmallHead(5, 1);
    SmallHead(0, 1);
    SmallHead(5, 0);
    PairsOfFit(map[]);
    assert Pairs(map[]) == [];
  }

  lemma MediumHead(major: int, v: u64)
    requires 0 <= major < 8 && 24 <= v < 256
    ensures |UintBytes(major, v)| == 2
  {
  }

  lemma KeyedStep(k: nat, xs: seq<Val>)
    requires AllFit(xs) && k + |xs| < 24 && xs != []
    ensures AllFit(xs[1..]) && |KeyedBytes(k, xs)| == 1 + |ValBytes(xs[0])| + |KeyedBytes(k + 1, xs[1..])|
  {
    hide ValBytes;
    SmallHead(0, k);
  }

  lemma {:induction false} CidsLength(cs: seq<Cid>)
    ensures |CidsBytes(cs)| == 34 * |cs|
  {
    if cs != [] {
      CidsLength(cs[1..]);
      MediumHead(2, 32);
    }
  }

  /** The length of a record of seven values is one byte for its header, one for each key, and the values'. */
  lemma SevenLength(xs: seq<Val>)
    requires AllFit(xs) && |xs| == 7
    ensures |RecordBytes(xs)| == 8 + |ValBytes(xs[0])| + |ValBytes(xs[1])| + |ValBytes(xs[2])| + |ValBytes(xs[3])|
                                   + |ValBytes(xs[4])| + |ValBytes(xs[5])| + |ValBytes(xs[6])|
  {
    hide ValBytes, KeyedBytes;
    SmallHead(5, 7);
    assert xs[0..] == xs;
    forall i | 0 <= i < 7 ensures xs[i..][1..] == xs[i + 1..] && xs[i..][0] == xs[i] {
    }
    KeyedStep(1, xs[0..]);
    KeyedStep(2, xs[1..]);
    KeyedStep(3, xs[2..]);
    KeyedStep(4, xs[3..]);
    KeyedStep(5, xs[4..]);
    KeyedStep(6, xs[5..]);
    KeyedStep(7, xs[6..]);
    NoValues(8);
    assert xs[7..] == [];
  }

  lemma NoValues(k: nat)
    requires k < 24
    ensures KeyedBytes(k, []) == []
  {
  }

  function ToyCommit(tree: Cid, parents: seq<Cid>, message: bytes): Commit
    requires |parents| <= MAX_COMMIT_PARENTS && TextFits(message)
  {
    MakeCommit(TOY, tree, parents, message, 0)
  }

  lemma CommitLength(tree: Cid, parents: seq<Cid>, message: bytes)
    requires |parents| <= MAX_COMMIT_PARENTS && |message| < 24 && TextFits(message)
    ensures CommitFits(ToyCommit(tree, parents, message))
    ensures |CommitWire(TOY.H, ToyCommit(tree, parents, message))| == 162 + 34 * |parents| + |message|
  {
    hide RecordBytes, AuthorId, SignatureBytes, UintBytes, CidsBytes, ValidUtf8;
    var c := ToyCommit(tree, parents, message);
    var xs := CommitVals(TOY.H, c);
    ValsFit(TOY.H, c);
    SevenLength(xs);
    MediumHead(2, 32);
    MediumHead(2, 64);
    SmallHead(4, |parents|);
    SmallHead(0, 0);
    SmallHead(0, 1);
    SmallHead(3, |message|);
    CidsLength(parents);
  }

  // ---------------------------------------------------------------------------------------------
  // Building disks
  // ---------------------------------------------------------------------------------------------

  /** A commit more, at HEAD. */
  function Grown(d: Disk, tree: Cid, parents: seq<Cid>, message: bytes): Disk
    requires |parents| <= MAX_COMMIT_PARENTS && |message| < 24 && TextFits(message)
  {
    CommitLength(tree, parents, message);
    CommitSaved(TOY, d, ToyCommit(tree, parents, message))
  }

  /** The name of such a commit. */
  function CommitName(parents: seq<Cid>, message: bytes): Cid {
    Name(162 + 34 * |parents| + |message|)
  }

  lemma GrownOk(d: Disk, tree: Cid, parents: seq<Cid>, message: bytes)
    requires |parents| <= MAX_COMMIT_PARENTS && |message| < 24 && TextFits(message)
    requires StoreOk(TOY, d) && CommitName(parents, message) !in d.commits
    ensures var d', h := Grown(d, tree, parents, message), CommitName(parents, message);
            && StoreOk(TOY, d') && Extends(d, d')
            && d' == d.(commits := d'.commits, head := Some(h)) && d'.commits.Keys == d.commits.Keys + {h}
            && LoadCommit(TOY, d', h).Ok? && LoadCommit(TOY, d', h).value.tree == tree
                 && LoadCommit(TOY, d', h).value.parents == parents
            && (forall c :: c in d.commits ==> LoadCommit(TOY, d', c) == LoadCommit(TOY, d, c))
  {
    hide StoreOk, MakeCommit, Normal, CommitOf, TextFits, CommitWire, CommitFits;
    ToyIsTrusted();
    CommitLength(tree, parents, message);
    CommitSavedOk(TOY, d, tree, parents, message, 0);
  }

  /** The empty tree, saved in an empty vault. */
  const START: Disk := EMPTY.(trees := map[Name(19) := EMPTY_WIRE])

  const EMPTY_WIRE: bytes := EmptyWire()

  function EmptyWire(): bytes {
    EmptyTreeLength();
    TreeWire(map[])
  }

  lemma StartOk()
    ensures StoreOk(TOY, START) && LoadTree(TOY, START, Name(19)) == Ok(map[]) && Encodable(map[]) && WireTree(map[])
    ensures START == TreeSaved(TOY, EMPTY, map[])
  {
    hide TreeOf, CommitOf, TreeWire;
    EmptyTreeLength();
    assert StoreOk(TOY, EMPTY);
    TreeSavedOk(TOY, EMPTY, map[]);
  }

  lemma ShortText(n: nat)
    requires n < 24
    ensures TextFits(Letters(n)) && |Letters(n)| == n
  {
    AsciiIsUtf8(Letters(n));
  }

  /** A message of some length. */
  function Letters(n: nat): bytes { seq(n, i => 97) }
}
